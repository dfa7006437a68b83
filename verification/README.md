# Control-plane verification

A Dafny model of the control plane in `src/aios_renew`, and proofs about it. The
control plane turns authored artifacts (TASKs, reviews, REPAIR authorizations) into
Git refs, tells a planning process which events need attention, and calls executors,
providers and acquisition adapters that it does not trust.

Check everything with `dafny verify dfyconfig.toml` (Dafny 4.11).

## How the model is laid out

| module | models |
|---|---|
| `Prelude`, `Text`, `Base64Url`, `Json` | options and results; splitting, numerals and key order; base64url; the JSON printer and reader |
| `Git` | commits, trees and ancestry: an append-only store in which a commit id is the position at which the commit was stored |
| `Metadata` | the metadata-commit builder and validator |
| `Publication` | the two-level compare-and-swap as a state machine over writers, clones and the remote |
| `AuthorTask`, `AuthorRepair` | what one envelope does, and what every run of the machine keeps when writers are AUTHOR_TASK and AUTHOR_REPAIR requests |
| `IngressExecution` | the publisher and both operations as imperative code over mutable refs, proved to be schedules of that machine |
| `TaskDecision`, `RepairDecision` | what either operation answers, on every input, stated on the refs, documents and envelope fields alone |
| `Attention`, `AttentionIdentity` | the twelve attention families, their ids and bodies, and the mutually recursive constructor and parser |
| `AttentionForms` | what each family may say: spellings, keys and constraints written out |
| `RunLineage` | the bounded depth-first lineage prover with its memo |
| `LineageDocuments` | what the documents of a RUN must say, and acceptance stated on them |
| `Freshness` | frozen and live ref readers and every branch of the freshness verdict |
| `FreshnessVerdicts` | what RESOLVED and UNRESOLVED mean for each family, stated on refs, documents and commits |
| `PilotCohort`, `PilotWalk` | the cohort fold over a history, and the walk that reads the history from Git |
| `AuditAdmission` | the ADMIT/CONTINUE authenticator, whose tests, source read, Human question and recording are separate steps that other calls may come between |
| `ExecutorBoundary`, `ExecutorFrames` | the invocation frame as a state machine over threads; the invocation and the feedback seam as imperative code over its fields, proved to be runs of that machine |
| `BrainAttempt` | the staged provider attempt with a trace of every question asked |
| `AcquisitionGuard`, `AcquisitionAdapter`, `AcquisitionRecords` | the destination guard with the cells it shares with the adapter; the adapter invocation and its report; manifest and invocation records |
| `ArtifactPackage` | the RESULT validator and the two package validators |

Conventions. A raise is one outcome (`Rejected`, `None`, `Reject`), whatever its
message; error codes are kept where a property speaks of them. YAML and JSON files in
Git trees are decoded values. Hash functions are parameters or fresh ids. An adapter,
a provider or a packet supplier is any sequence of answers, which covers callees that
adapt to what they are told. A crash is a writer that is never scheduled again.

The publication machine has one action for each step of `_publish_ingress_ref` that
other processes can come between: entering, the two rechecks, the local
compare-and-swap, the push with its three outcomes (landed, landed but reported as
failed, bounced), and the undo, which may itself fail. Reservation, origin-proof and
working-tree checks are steps that may only abort. The Publisher is an environment
step that moves main to a descendant with the same TASK files. Fetches and stray local
updates from canonical values are environment steps too. In the store a file cannot
name a commit made after it, which is what hashing guarantees.

The decision procedures follow the source branch by branch. Beside each stands an account
that names none of their functions, and a proof that the two agree on every input.

## Findings

Seven places where the code does something other than what one might expect from its
description; the model follows the code.

* A replayed AUTHOR_TASK envelope is not always rejected once main has moved on. It is
  answered IDEMPOTENT at a later main when the TASK is still at the envelope's revision
  and the first parent of main is the main the envelope expected, as after a merge that
  lists the old main first (`authoring_ingress.py:586-602`). `AuthorTask.LaterReplay`
  gives the exact condition and `AuthorTask.MergeReplayIsAccepted` a run that ends there.
* `ls-remote` matches a pattern against any tail of a ref name, the frozen reader
  matches whole names (`brain_attention.py:744-752`, `895-897`). `Freshness.QueryAgrees`
  says for one pattern exactly when the two agree, and `Freshness.FrozenJudgesAsLive`
  exactly when the verdicts do: the two queries that use more than one literal name are
  exposed to stray refs, and then the live reader answers UNKNOWN.
  `Freshness.StrayRefDivides` and `Freshness.StrayRemediationDivides` are an instance for
  each of the two.
* A feedback body can start in a frame that another thread has just stopped, and after
  its lease has just been released, since the opening check, the hold of the lease and
  the start of the body are separate steps (`executor.py:151-158`, `run.py:162-165`).
  `ExecutorBoundary.BodyStartsInside` says exactly when, and
  `ExecutorBoundary.StoppedBodyStarts` and `ExecutorBoundary.LeaselessBodyStarts` are
  runs that end there. Such a body can never finish successfully
  (`ExecutorBoundary.DoomedNeverSucceeds`, `ExecutorBoundary.SuccessMeansHeld`).
* The destination guard shares with the adapter the address list of every hop, and reads
  the requested locator from the invocation that the adapter holds
  (`acquisition_adapter.py:347`, `365-368`). An adapter that writes to them makes the
  report show addresses that were never approved, or a first hop that was never asked
  for. `AcquisitionAdapter.ReportedDestinations` says exactly when the report shows what
  was approved and asked for, `AcquisitionAdapter.WritesShowUnnoticed` that any list can
  be put into any accepted report, and `AcquisitionAdapter.PrivateAddressIsReported` and
  `AcquisitionAdapter.OtherDestinationIsReported` are instances. The number of hops,
  their approved URLs, the latch and the receipt are not affected.
* A guard call raises without setting the latch when it has no hop to follow and the
  adapter has removed the request from the invocation, because that exception is none
  of those the guard expects (`acquisition_adapter.py:345-363`);
  `AcquisitionGuard.BreakLeavesNoTrace`.
* Under policy version 2 an ADMIT can be accepted twice. The tests, the read of the
  source, the question to the Human and the recording of the admission are not one locked
  step (`brain_context.py:1189-1201`), so an ADMIT that passed the tests before another
  was recorded is accepted too. `AuditAdmission.AdmittedOnce` gives the exact condition.
  `AuditAdmission.OverlappingAdmitsAreAccepted` is an instance from two threads, with or
  without a Human, and `AuditAdmission.NestedAdmitIsAccepted` one from a single thread.
  Where ADMITs are kept apart, as on one thread without a Human, it cannot happen
  (`AuditAdmission.AdmittedOnceApart`, `AuditAdmission.Authenticator.Serve`).
* The ceiling on an invocation applies to the record as it came, fingerprint included
  (`acquisition_adapter.py:191`). A long spelling can construct and yet, signed with the
  right fingerprint, not validate; `AcquisitionRecords.ValidateInvocationProjects` has the
  exact condition and `AcquisitionRecords.LongSpellingDoesNotValidate` the case.

## Model

| member | source | states |
|---|---|---|
| Git.AncestorTransitive | src/aios_renew/brain_attention.py:876-884 | inclusion in main's history is transitive, so it lasts along any later commit |
| Git.AncestorStable | src/aios_renew/brain_attention.py:876-884 | commits stored later never change the ancestry of commits already there |
| Metadata.ChangedExactlyOne | src/aios_renew/authoring_ingress.py:2635-2650 | a diff names exactly one path if and only if the tree differs by that one entry and really differs |
| Metadata.ValidatorExact | src/aios_renew/authoring_ingress.py:2611-2668 | the validator accepts exactly: the expected sole parent, the parent's tree with this one regular file, and a real change |
| Metadata.BuilderAndValidatorAgree | src/aios_renew/authoring_ingress.py:2577-2668 | with no blob yet at the path a commit is accepted if and only if its tree is the one the builder makes on the expected sole parent |
| Metadata.AcceptedRequestIsUnique | src/aios_renew/authoring_ingress.py:759-791 | a commit recognised as the replay of one request is the replay of no other content, path or parent |
| Metadata.BuiltTreeIsConsistent | src/aios_renew/authoring_ingress.py:2577-2608 | the built tree holds the document at the path, keeps every other file, and can be stored |
| Publication.StepKeeps | src/aios_renew/authoring_ingress.py:2836-2946 | every step of every writer in every clone keeps the publication invariant |
| Publication.WriteOnce | src/aios_renew/authoring_ingress.py:2894-2946 | a ref published only as missing takes at most one remote value and keeps it for ever; a writer that returned normally pushed that value, in every interleaving and with pushes that land but are reported failed |
| Publication.LocalRefsAreExplained | src/aios_renew/authoring_ingress.py:2895-2946 | every local ref holds its clone's starting value, a value once canonical, or the commit of a writer there that passed its local compare-and-swap |
| Publication.UndoIsContained | src/aios_renew/authoring_ingress.py:2912-2946 | an undo changes at most one local ref, only while it holds this writer's commit, and leaves a canonical value or nothing |
| Publication.RunExtends | src/aios_renew/authoring_ingress.py:2836-2946 | over any run the store, the canonical values and the log of main only grow, and a writer's request never changes |
| AuthorTask.AuthoredCommit | src/aios_renew/authoring_ingress.py:571-660 | an authored commit has the expected main as sole parent, changes exactly one TASK path, and raises that TASK's revision by one |
| AuthorTask.NoLostUpdate | src/aios_renew/authoring_ingress.py:669-699 | every commit a writer got onto main is an ancestor of every later main, and every writer builds on a value remote main really had |
| AuthorTask.AuthorsAppendOneCommit | src/aios_renew/authoring_ingress.py:622-660 | each move of main by an author goes from a commit to its direct child and changes one TASK path |
| AuthorTask.RevisionsAreConsecutive | src/aios_renew/authoring_ingress.py:582-616 | along main the authored revisions of a TASK are consecutive from the revision main started with |
| AuthorTask.RevisionHistory | src/aios_renew/authoring_ingress.py:571-625 | over whole runs with many authors the revisions of each TASK are 1, 2, 3, ... without gap or repeat |
| AuthorTask.AppliedAtMostOnce | src/aios_renew/authoring_ingress.py:571-625 | one envelope, carried by any number of writers, moves main at most once |
| AuthorTask.ImmediateReplay | src/aios_renew/authoring_ingress.py:586-602 | at the main it produced an envelope is answered IDEMPOTENT |
| AuthorTask.LaterReplay | src/aios_renew/authoring_ingress.py:586-616 | at any later main it is answered IDEMPOTENT exactly if the TASK is still at its revision and the first parent of main is the expected main, and otherwise rejected |
| AuthorTask.MergeReplayIsAccepted | src/aios_renew/authoring_ingress.py:586-602 | a run in which a writer publishes and somebody merges its commit into the old main ends where the envelope is answered IDEMPOTENT at the merge |
| TaskDecision.DecisionTable | src/aios_renew/authoring_ingress.py:571-639 | the answer at every main to every envelope: a replay exactly if main holds this TASK field by field and is the expected main or has it as first parent; a mutation exactly for the next revision on the expected main with current policy and the held affinity, to exactly this tree; otherwise a refusal |
| AuthorRepair.ChainLengthExact | src/aios_renew/authoring_ingress.py:1534-1544 | the reader accepts a chain of length n exactly if the refs are the revisions 1..n |
| AuthorRepair.DecidedLinks | src/aios_renew/authoring_ingress.py:1676-1703 | a decided commit links to the authorization current when it was decided, at the next revision, with the request's payload |
| AuthorRepair.DecidedIsStorable | src/aios_renew/authoring_ingress.py:1676-1703 | what a request decides to write has stored parents and a tree Git can hold |
| AuthorRepair.StepKeepsChains | src/aios_renew/authoring_ingress.py:1534-1576 | every step of racing requests keeps every chain of authorizations linked |
| AuthorRepair.OneContiguousChain | src/aios_renew/authoring_ingress.py:1534-1576 | authorizations form one fork-free chain 1..n, each revision's sole parent being the previous revision's commit, and the current one is readable |
| AuthorRepair.ReplayIsCanonical | src/aios_renew/authoring_ingress.py:1638-1662 | an IDEMPOTENT answer names the current authorization, whose payload is the request's |
| AuthorRepair.RaceWonIsCanonical | src/aios_renew/authoring_ingress.py:1704-1722 | an identical winner found after a lost race is the current authorization at the request's ref and holds its payload |
| AuthorRepair.ReturnedWasTip | src/aios_renew/authoring_ingress.py:1676-1730 | CANONICALIZED is linearizable: between entry and return the request's commit was the current authorization with its payload |
| AuthorRepair.RetryWhileCurrent | src/aios_renew/authoring_ingress.py:1638-1662 | while its commit is current, repeating a request verbatim is answered IDEMPOTENT at that commit |
| AuthorRepair.StalePredecessorIsRefused | src/aios_renew/authoring_ingress.py:1638-1657 | naming an earlier revision as current never writes, even if a later one brought its content back; at most it replays the current revision by its direct predecessor |
| AuthorRepair.EarlierIsOlder | src/aios_renew/authoring_ingress.py:1560-1576 | earlier revisions of a chain exist and are older commits |
| AuthorRepair.SameObservation | src/aios_renew/authoring_ingress.py:1599-1604 | a request is judged on objects, remote refs and the recorded failure, and on nothing local |
| RepairDecision.UnreadableIsRefused | src/aios_renew/authoring_ingress.py:1534-1576 | a RUN without recorded failure, or whose refs are no chain of readable revisions, is refused |
| RepairDecision.FirstDecision | src/aios_renew/authoring_ingress.py:1607-1686 | with no authorization the first one is written exactly if the request names this failure and no current authorization and the file fits, as exactly this commit on the failed head; nothing is replayed |
| RepairDecision.LaterDecision | src/aios_renew/authoring_ingress.py:1638-1703 | on a chain of length n the next revision is written exactly under its conditions on heads, payload, current commit, failure artifacts and file places, with exactly this commit; a replay names revision n exactly under its own; anything else is refused |
| RepairDecision.ReadExactly | src/aios_renew/authoring_ingress.py:1534-1576 | a readable chain is read as its last revision, with its payload and the commit before it |
| RepairDecision.RaceWonExactly | src/aios_renew/authoring_ingress.py:1704-1722 | a lost race is answered exactly if the chain is readable up to the revision asked for, which holds the same payload on the same predecessor |
| IngressExecution.Network.PublishIngressRef | src/aios_renew/authoring_ingress.py:2836-2946 | the publisher over mutable local and remote refs is a schedule of the machine, and returns normally exactly in the phase Returned |
| IngressExecution.Network.PushLocal | src/aios_renew/authoring_ingress.py:2908-2946 | recheck, push and undo after the local compare-and-swap are a schedule of the machine |
| IngressExecution.Network.ExecuteAuthorTask | src/aios_renew/authoring_ingress.py:571-702 | AUTHOR_TASK, with time passing between any two of its reads and writes, is a schedule of the machine; a replay takes no action, and the remote main it read holds the TASK of the request field by field; success means the next revision was authored on the expected main and the remote main, and afterwards the local one, was the request's own commit |
| IngressExecution.Network.ExecuteAuthorRepair | src/aios_renew/authoring_ingress.py:1607-1725 | AUTHOR_REPAIR is a schedule of the machine; a refused request raises without an action, a replay, even of a lost race, names the current authorization with the request's payload, and success publishes the very commit that was decided |
| IngressExecution.Network.ClassifyLostRace | src/aios_renew/authoring_ingress.py:1704-1722 | the one read after a failed publication answers exactly if there is an identical current winner |
| Base64Url.SextetsRoundTrip | src/aios_renew/brain_attention.py:167-168 | octets survive the six-bit regrouping |
| Base64Url.DecodeEncode | src/aios_renew/brain_attention.py:224-232 | encoding stays in the alphabet of RFC 4648 section 5 and decodes back to the text |
| Base64Url.DecodeIsNotInjective | src/aios_renew/brain_attention.py:224-236 | the decoder alone accepts several spellings, so the final comparison is needed |
| Json.ParsePrinted | src/aios_renew/brain_attention.py:103-128 | compact printing and reading of an object of plain texts, flags and natural numbers are inverse, members in order |
| Json.ParseIsShorter | src/aios_renew/brain_attention.py:111-128 | every text read from a document is shorter than the document |
| Json.EscapesExactly | src/aios_renew/brain_attention.py:111-128 | the escapes read stand for a solidus, or for a printable character by its two low hexadecimal digits in either case |
| Attention.SchemasArePlain | src/aios_renew/brain_attention.py:54-97 | every key and every word of every schema prints without an escape |
| Attention.ToMapOfSorted | src/aios_renew/brain_attention.py:103-104 | sorting the members of a mapping loses nothing |
| AttentionIdentity.LoadedIsShorter | src/aios_renew/brain_attention.py:131-141 | a recovery names an id shorter than the text it was loaded from, which ends the mutual recursion |
| AttentionIdentity.ParseInvertsPrint | src/aios_renew/brain_attention.py:159-236 | a string is accepted as an attention exactly if the attention is constructible and the string is its event id |
| AttentionIdentity.IdsAreDistinct | src/aios_renew/brain_attention.py:162-168 | different constructible attentions have different event ids |
| AttentionIdentity.SpacedSpelling | src/aios_renew/brain_attention.py:233-236 | another spelling of the same selectors decodes to the same attention and is refused |
| AttentionIdentity.RecoverableIds | src/aios_renew/brain_attention.py:136-141 | a recovery may name exactly the ids of constructible attentions that are not recoveries |
| AttentionIdentity.ParseBodyInvertsRender | src/aios_renew/brain_attention.py:156-214 | a rendered body parses to the attention it came from |
| AttentionIdentity.AcceptedBodyRenders | src/aios_renew/brain_attention.py:209-214 | whatever spelling of a body is accepted, rendering gives its canonical body and its id parses back |
| AttentionIdentity.BodiesAreDistinct | src/aios_renew/brain_attention.py:159-160 | different constructible attentions have different bodies |
| AttentionForms.SchemasExactly | src/aios_renew/brain_attention.py:46-75 | the keys of every family and the kind of value under each |
| AttentionForms.KindsExactly | src/aios_renew/brain_attention.py:83-97 | the spelling of each kind: hashes, RUN and TASK names, identifiers, canonical refs, positive numbers, enumerations |
| AttentionForms.RejectionChecks | src/aios_renew/brain_attention.py:179-186 | a rejected review names its RUN and no finding; a rejected correction names its RUN and, for a REPAIR, no finding |
| AttentionForms.CarrierChecks | src/aios_renew/brain_attention.py:187-194 | an ingress item names either nothing, with an unknown operation, or, on the INGRESS carrier, a TASK to author |
| AttentionForms.DeliveryChecks | src/aios_renew/brain_attention.py:195-200 | a delivery is about a TASK when primary, otherwise about a RUN, or about nothing; only a remediation names a finding |
| AttentionForms.ConstructedExactly | src/aios_renew/brain_attention.py:171-206 | an attention is constructible exactly if keys, kinds and constraints are those of its family, a recovery names a constructible attention that is no recovery, and id and body fit in 8192 octets |
| RunLineage.Prover.RunAffinity | src/aios_renew/brain_attention.py:963-1079 | the recursion ends by the measure 32 minus visited plus proven, keeps the memo sound, and succeeds whenever a certificate covers what is known |
| RunLineage.Resolve | src/aios_renew/brain_attention.py:963-1079 | a fresh proof succeeds exactly if some closed set of at most 32 RUNs has consistent edges that all lead downwards, and returns the RUN's own affinity |
| RunLineage.MemoHitIsFresh | src/aios_renew/brain_attention.py:965-972 | a memo hit answers a request exactly as a fresh proof would |
| RunLineage.LineageAgrees | src/aios_renew/brain_attention.py:1018-1077 | every descent from an accepted RUN shares its TASK reference and return affinity, repeats nothing, and has at most 32 RUNs |
| RunLineage.ClosureIsBounded | src/aios_renew/brain_attention.py:973-975 | the whole closure of an accepted RUN has at most 32 RUNs |
| LineageDocuments.FactsExactly | src/aios_renew/brain_attention.py:981-1077 | the documents of a RUN establish artifact, head, family, TASK and affinity exactly if refs, terminal document, RUN record, TASK at base and head, review and repair record all agree |
| LineageDocuments.AcceptedExactly | src/aios_renew/brain_attention.py:963-1079 | a RUN is accepted exactly if some set of at most 32 RUNs has agreeing documents, every RUN they name is in it with the named commit and family, the same TASK and affinity, and names lead downwards |
| LineageDocuments.NamedIsAccepted | src/aios_renew/brain_attention.py:1036-1077 | a corrected RUN, an execution base and a failed RUN named by an accepted RUN are each accepted themselves, at the named commit, with the same TASK and affinity |
| Freshness.QueryAgrees | src/aios_renew/brain_attention.py:744-752 | for a frozen pattern the frozen and live readers agree exactly if no ref strays into it |
| Freshness.PatternsCoverQueries | src/aios_renew/brain_attention.py:1590-1619 | for every family and branch each query is covered by the patterns that were frozen |
| Freshness.VerdictCarries | src/aios_renew/brain_attention.py:1656-1769 | a decided verdict is the verdict of every reader that answers the queries alike and reaches at least the same commits |
| Freshness.FrozenJudgesAsLive | src/aios_renew/brain_attention.py:887-904 | over the same commits the frozen reader judges an item as the live one if and only if no stray ref is listed in a sensitive query, or the refs, documents and issue leave the frozen reader undecided as well |
| Freshness.MaskedIsUnknown | src/aios_renew/brain_attention.py:1645-1653 | a live reader that lists a stray ref decides nothing, whatever commits it reaches |
| Freshness.DecidedIsLive | src/aios_renew/brain_attention.py:1620-1625 | RESOLVED or UNRESOLVED on the snapshot path means equal reads before and after, for all refs, and is the live verdict at either moment if and only if no stray ref was listed |
| Freshness.NoPatternsNoRefs | src/aios_renew/brain_attention.py:1620-1621 | without patterns the verdict depends on no ref and is never RESOLVED |
| Freshness.StrayRefDivides | src/aios_renew/brain_attention.py:1719-1724 | a stray review-decision ref makes the live reader answer UNKNOWN where the frozen one answers UNRESOLVED |
| Freshness.StrayRemediationDivides | src/aios_renew/brain_attention.py:1663-1673 | so does a stray remediation ref for a review that asks for corrections |
| Freshness.ReviewCarries | src/aios_renew/brain_attention.py:829-874 | a proven review depends on the refs only through the literal names of its patterns |
| Freshness.CurrentCarries | src/aios_renew/brain_attention.py:413-425 | so does the currency of a publication context with its blocker |
| Freshness.DeliveryCarries | src/aios_renew/brain_attention.py:1527-1574 | so does the resolution of a delivery |
| FreshnessVerdicts.VerdictExactly | src/aios_renew/brain_attention.py:1656-1769 | for every family RESOLVED and UNRESOLVED hold exactly under conditions on refs, documents and commits at hand; a failed publication is RESOLVED exactly if its standing PASS review is in main and UNRESOLVED exactly if it is not |
| FreshnessVerdicts.FreshnessExactly | src/aios_renew/brain_attention.py:1620-1653 | the answer in the end is that verdict exactly if the patterns read the same before and after |
| PilotCohort.FoldKeeps | src/aios_renew/brain_context.py:1318-1349 | the walk knows every identity it has passed, and its members are first authors, numbered and distinct |
| PilotCohort.FoldIsCohort | src/aios_renew/brain_context.py:1302-1350 | an accepted cohort has at most ten TASKs, in authoring order, none with a file at or before the boundary even if deleted and added again, and below ten nobody is missing |
| PilotCohort.MembersOnlyAppended | src/aios_renew/brain_context.py:1318-1350 | over a longer history members are only appended |
| PilotCohort.Sift | src/aios_renew/brain_context.py:1325-1338 | the loop over added rows notes identities with a past and collects the new ones, each once |
| PilotWalk.TouchedMeansExisted | src/aios_renew/brain_context.py:1331-1338 | some commit up to the boundary changed the path exactly if the TASK had a file by then |
| PilotWalk.BoundaryIsUnique | src/aios_renew/brain_context.py:1302-1317 | the first commit of the chain that includes the reviewed one is unique |
| PilotWalk.FindBoundary | src/aios_renew/brain_context.py:1302-1314 | walking back at most 257 commits finds the boundary exactly if it is in reach |
| PilotWalk.PilotMembers | src/aios_renew/brain_context.py:1292-1350 | the imperative walk computes the specified boundary and members, or is refused with it |
| PilotWalk.PilotIsExact | src/aios_renew/brain_context.py:1292-1350 | an accepted pilot names the publication boundary and exactly its cohort |
| PilotWalk.CohortIsStable | src/aios_renew/brain_context.py:1302-1350 | while main grows along its first-parent chain the boundary stays and the members are a prefix of the later ones |
| AuditAdmission.Authenticator.Authenticate | src/aios_renew/brain_context.py:1187-1202 | one call on one thread, with every call the Human makes while being asked about it, is a run of the specified steps; its outcome is given by its last step and nothing is left pending |
| AuditAdmission.ContinueFollowsAdmit | src/aios_renew/brain_context.py:1187-1203 | every accepted CONTINUE arrived after an accepted ADMIT, however calls nest or overlap |
| AuditAdmission.AdmittedOnce | src/aios_renew/brain_context.py:1189-1201 | under policy version 2, over all runs of nested and overlapping calls, at most one ADMIT is accepted if and only if none is accepted while another that passed the tests is pending and later accepted |
| AuditAdmission.AdmittedOnceApart | src/aios_renew/brain_context.py:1189-1201 | at most one ADMIT is accepted under version 2 if none passes the tests while another is pending |
| AuditAdmission.Authenticator.Serve | src/aios_renew/brain_context.py:1187-1202 | on one thread without a Human that is so for any sequence of calls |
| AuditAdmission.OverlappingAdmitsAreAccepted | src/aios_renew/brain_context.py:1189-1201 | two ADMITs that both pass the tests before either is recorded are both accepted, with or without a Human |
| AuditAdmission.NestedAdmitIsAccepted | src/aios_renew/brain_context.py:1197-1201 | an ADMIT that the Human makes while being asked about another is accepted, and so is the other |
| AuditAdmission.AcceptedMeansUnmoved | src/aios_renew/brain_context.py:1189-1199 | every accepted call arrived with the bound selection, then read the bound source, and where a Human choice is bound got the Human's approval, however calls interleave |
| AuditAdmission.AcceptsExactly | src/aios_renew/brain_context.py:1187-1202 | a step accepts a call exactly if it is the first end, after the first read, of a call that passed the tests, the read found the source unmoved, and a bound Human approved |
| ExecutorBoundary.StepKeeps | src/aios_renew/executor.py:101-165 | every step of every thread keeps the frame invariant |
| ExecutorBoundary.OneLiveFrame | src/aios_renew/executor.py:104-121 | at most one invocation is under way, whatever frames were made before |
| ExecutorBoundary.ChecksExactly | src/aios_renew/executor.py:128-149 | the opening and the closing check pass exactly for the live frame of this thread, executing, not stopped, with its lease held and the arguments the same, and a failing one sends the feedback to its handler |
| ExecutorBoundary.BodiesNeverOverlap | src/aios_renew/executor.py:151-161 | at most one feedback body runs, on any threads and any frames |
| ExecutorBoundary.EveryBodyWasOpened | src/aios_renew/executor.py:151-158 | before any body starts its thread passed the opening check and took hold of the lease, and did nothing else since |
| ExecutorBoundary.BodyStartsInside | src/aios_renew/executor.py:151-158 | a body starts on the invoking thread inside the execute call of the live frame; the frame is stopped then exactly if an invocation or a failing feedback of the frame came since the opening check, and the lease is held exactly if it was not released since the hold |
| ExecutorBoundary.StoppedWhileWaiting | src/aios_renew/executor.py:104-107 | over any stretch of a run in which a thread waits between check and body its frame is stopped exactly by those two kinds of action |
| ExecutorBoundary.LeaseHeldExactly | src/aios_renew/run.py:154-169 | in any run a lease is held exactly if it was held before and not released since |
| ExecutorBoundary.StoppedBodyStarts | src/aios_renew/executor.py:151-158 | a run in which a body starts in a frame that another thread has just stopped |
| ExecutorBoundary.LeaselessBodyStarts | src/aios_renew/run.py:154-168 | a run in which a body starts just after its lease was released |
| ExecutorBoundary.NestedIsRefused | src/aios_renew/executor.py:152-153 | a feedback entered while a body of the same frame runs is refused |
| ExecutorBoundary.ReentryStops | src/aios_renew/executor.py:104-107 | a second invocation stops the live frame and leaves it live |
| ExecutorBoundary.StoppedNeverPasses | src/aios_renew/executor.py:128-137 | once stopped a frame stays stopped in every run, and no check of it passes again |
| ExecutorBoundary.EnclosingIsDoomed | src/aios_renew/executor.py:157-165 | a feedback that fails dooms every feedback around it on its thread |
| ExecutorBoundary.DoomedNeverSucceeds | src/aios_renew/executor.py:157-165 | in any run a feedback of a stopped frame short of its closing check can only end by raising |
| ExecutorBoundary.LaterIsDoomed | src/aios_renew/executor.py:162-165 | a feedback entered at any time after a failure in its frame is doomed from the start |
| ExecutorBoundary.SuccessMeansHeld | src/aios_renew/run.py:154-169 | a feedback that returns normally held its lease at every moment of the run |
| ExecutorFrames.Boundary.InvokeProspective | src/aios_renew/executor.py:101-121 | with any other threads acting between its sections and any calls back from the adapter, an invocation is a run of the machine: it is refused and stops the live frame, or it leaves its own frame stopped and the boundary free however the adapter comes back |
| ExecutorFrames.Boundary.SameInvocation | src/aios_renew/executor.py:123-165 | so is a feedback with any body: it comes back normally only if its arguments agreed twice, its body did not raise and its lease was held all along, and otherwise it raises and leaves the captured frame stopped |
| ExecutorFrames.Boundary.RunForeign | src/aios_renew/executor.py:114-159 | whatever foreign code calls and swallows, the calls around it on its thread stay as they were |
| BrainAttempt.Attempt.Invoke | src/aios_renew/brain_provider.py:388-431 | one call, made right after the provider showed its configured identity; an answer carries that identity and validates |
| BrainAttempt.Attempt.Renew | src/aios_renew/brain_provider.py:449-503 | a second request is built only over a packet that reproduces the first one |
| BrainAttempt.Attempt.FinishDouble | src/aios_renew/brain_provider.py:449-525 | the second call comes after such a packet, and a guarded success after a closing rebuild |
| BrainAttempt.Attempt.Stages | src/aios_renew/brain_provider.py:433-525 | the stages succeed exactly if their calls, the packet between two calls and the closing rebuild do; at most two calls; the count is the number of attributions on success and the reported one on failure; attributions are the provider's and carry the configured identity |
| BrainAttempt.Perform | src/aios_renew/brain_provider.py:267-525 | the same for whole attempts, checks and packets included, over every behaviour of provider, supplier and request builder |
| BrainAttempt.FreshBetween | src/aios_renew/brain_provider.py:470-484 | between any two calls of such a trace a supplied packet reproduces the first request |
| AcquisitionGuard.GuardKeepsLawful | src/aios_renew/acquisition_adapter.py:340-366 | whatever the adapter asks and overwrites there are at most eight hops, each approved on a public URL with distinct global addresses in order, and the URLs are those approved |
| AcquisitionGuard.LatchMeansRefusal | src/aios_renew/acquisition_adapter.py:340-366 | the latch is set exactly if some call was refused; without refusal or broken comparison every call became a hop |
| AcquisitionGuard.BreakLeavesNoTrace | src/aios_renew/acquisition_adapter.py:345-363 | a call that fails to compare with a request that is gone raises, and leaves guard and reports as if it had not been made |
| AcquisitionGuard.ResolveExactly | src/aios_renew/acquisition_adapter.py:353-360 | a list of addresses resolves exactly if each is global and no two resolve alike |
| AcquisitionGuard.OrderDecidesNothing | src/aios_renew/acquisition_adapter.py:353-361 | the order of resolved addresses decides neither the hop nor whether it is approved |
| AcquisitionGuard.AnswerExactly | src/aios_renew/acquisition_adapter.py:340-366 | a call is approved, refused or broken exactly under its conditions on transport, number of hops, locator, port, number of addresses and the addresses |
| AcquisitionGuard.WritesShow | src/aios_renew/acquisition_adapter.py:361-366 | each reported list is the approved one, or the last thing the adapter wrote over it |
| AcquisitionGuard.FirstHopStood | src/aios_renew/acquisition_adapter.py:346-347 | the first hop is the locator that stood in the invocation when it was approved |
| AcquisitionGuard.Guard.Check | src/aios_renew/acquisition_adapter.py:340-366 | the guard with its loop over addresses, its two fields and the list it shares does what is specified, and a refusal only sets the latch |
| AcquisitionGuard.Guard.Perform | src/aios_renew/acquisition_adapter.py:340-368 | an adapter that calls the guard and writes to the shared lists and the invocation leaves the specified state |
| AcquisitionAdapter.RefusalIsFinal | src/aios_renew/acquisition_adapter.py:367-380 | one refusal, swallowed or not, leaves only a failed report with UNSAFE_DESTINATION, no observation and a zero receipt |
| AcquisitionAdapter.SuccessExactly | src/aios_renew/acquisition_adapter.py:262-323 | a report succeeds exactly if nothing was refused and the native return is good in every respect against the invocation and hops as the adapter left them |
| AcquisitionAdapter.HttpSuccess | src/aios_renew/acquisition_adapter.py:286-305 | a successful public fetch, whatever was overwritten, had no refusal, made one native operation, has one to eight approved destinations in order, and resolved every observation through exactly their URLs |
| AcquisitionAdapter.ReportedDestinations | src/aios_renew/acquisition_adapter.py:340-404 | an accepted report shows the approved addresses if and only if no write left anything else in the lists, and its first hop is the locator asked for if and only if that still stood in the invocation when it was approved |
| AcquisitionAdapter.WithoutWrites | src/aios_renew/acquisition_adapter.py:330-405 | an adapter that only calls is reported with lawful hops, the requested locator first, one for each call, under its own invocation and request |
| AcquisitionAdapter.SuccessInFull | src/aios_renew/acquisition_adapter.py:262-405 | success written out on the native return and the invocation as left, with every field of the report |
| AcquisitionAdapter.FailureInFull | src/aios_renew/acquisition_adapter.py:262-405 | which failure code is reported, on which return, and with which fields |
| AcquisitionAdapter.WritesShowUnnoticed | src/aios_renew/acquisition_adapter.py:364-404 | one more write puts any list into any hop of an accepted report and changes nothing else in it |
| AcquisitionAdapter.PrivateAddressIsReported | src/aios_renew/acquisition_adapter.py:365-366 | an adapter that appends to the list it was given makes a successful report show a private address |
| AcquisitionAdapter.OtherDestinationIsReported | src/aios_renew/acquisition_adapter.py:347-368 | an adapter that replaces the request gets another destination reported under the original invocation |
| AcquisitionAdapter.OtherTransportsHaveNoHops | src/aios_renew/acquisition_adapter.py:342-344 | for other transports any guard call is a refusal |
| AcquisitionAdapter.AcceptObservations | src/aios_renew/acquisition_adapter.py:294-323 | the loop accepts the observations exactly if every one is allowed |
| AcquisitionAdapter.Invoke | src/aios_renew/acquisition_adapter.py:330-405 | the whole invocation, over the shared cells, computes the specified report for every sequence of guard calls and writes |
| AcquisitionRecords.ConstructedValidates | src/aios_renew/acquisition_adapter.py:141-185 | a constructed manifest validates to itself |
| AcquisitionRecords.ValidateProjects | src/aios_renew/acquisition_adapter.py:141-185 | validation accepts exactly the records whose body constructs to their fingerprint, and is idempotent |
| AcquisitionRecords.OrderIsForgotten | src/aios_renew/acquisition_adapter.py:158-174 | permuting families or scopes gives the identical verdict, record and fingerprint |
| AcquisitionRecords.OnlyOrderIsForgotten | src/aios_renew/acquisition_adapter.py:170-174 | manifests that construct alike differ in nothing but that order |
| AcquisitionRecords.ConstructedInvocationValidates | src/aios_renew/acquisition_adapter.py:188-244 | a constructed invocation validates to itself |
| AcquisitionRecords.ValidateInvocationProjects | src/aios_renew/acquisition_adapter.py:188-244 | invocation validation is a projection: it accepts exactly the records within the ceiling whose body constructs to their fingerprint |
| AcquisitionRecords.LongSpellingDoesNotValidate | src/aios_renew/acquisition_adapter.py:188-191 | a spelling that constructs within 92 octets of the ceiling does not validate once signed |
| AcquisitionRecords.TargetOrderIsForgotten | src/aios_renew/acquisition_adapter.py:197-233 | permuting challenge targets gives the identical verdict, record and fingerprint |
| AcquisitionRecords.ManifestExactly | src/aios_renew/acquisition_adapter.py:141-174 | a manifest constructs exactly if ids are safe and families and scopes are those its transport may declare, none twice, and it fits; it keeps every field and sorts those two |
| AcquisitionRecords.InvocationExactly | src/aios_renew/acquisition_adapter.py:188-233 | an invocation constructs exactly if manifest, request, mode, context and targets agree and it fits, and to exactly these fields |
| ArtifactPackage.ValidateResult | src/aios_renew/artifacts.py:88-135 | a RESULT is accepted exactly if every field is readable, claim ids are distinct and each claim satisfies something (and is backed, at the canonical stage); it is represented field by field |
| ArtifactPackage.ValidateStructuralPackage | src/aios_renew/artifacts.py:303-353 | a package is structurally accepted, unchanged, exactly if it references its TASK and RUN, binds distinct evidence to the RUN and head, and its claims are closed |
| ArtifactPackage.ValidateResultPackage | src/aios_renew/artifacts.py:211-287 | it is canonically accepted, unchanged, exactly if it is structurally acceptable and claims are supported, requirements covered by passing evidence, bases attributed and no V2 verification blocking |
| ArtifactPackage.CheckRequirements | src/aios_renew/artifacts.py:272-285 | the loops accept exactly if each required command has passing evidence and no V2 verification fails |
| ArtifactPackage.CanonicalIsStructural | src/aios_renew/artifacts.py:211-353 | a canonical package is structural, and each required command has passing evidence bound to RUN, head and base |
| ArtifactPackage.StructuralExactly | src/aios_renew/artifacts.py:303-353 | which packages are structural, written out on TASK, RUN, evidence and claims |
| ArtifactPackage.CanonicalExactly | src/aios_renew/artifacts.py:211-300 | a package is canonical exactly if it is structural, its claims are supported and bases attributed, each required command has an item with exit 0, or under V2 a measuring command or an attributed outcome for its own subject, command and exit, and under V2 every VERIFICATION item is like that |
| ArtifactPackage.ReferencesResolve | src/aios_renew/artifacts.py:338-351 | each evidence reference of a claim names exactly one item, bound to the RUN and the head |
| ArtifactPackage.AcceptanceIgnoresOrder | src/aios_renew/artifacts.py:211-353 | acceptance at either stage does not depend on the order of the evidence |
| ArtifactPackage.MoreEvidence | src/aios_renew/artifacts.py:230-285 | one more item keeps a canonical package canonical exactly if it is bound, new, attributed and not blocking |

## Left out

- SUBMIT_REVIEW and AUTHOR_REMEDIATION as operations: `_resolve_ref_sha` may fall back to a local ref, so their success claims would need one writer per clone; their refs and metadata commits are covered by `Publication.WriteOnce` and the `Metadata` lemmas.
- The unconditional update of `_publish_ingress_ref` (`authoring_ingress.py:2907-2908`): no caller in the repository reaches it.
- The publication, review-transport, run, review, task and protocol modules: they appear as parameters, as decoded values, or as steps that may only abort. `run.py` is modelled as the set of leases not yet released.
- AuthorRepair.OneContiguousChain: the failure artifacts of a failed RUN are fixed during a run, as the write-once ref that holds them is.
- Json.ParsePrinted: arrays, negative and fractional numbers and characters outside printable ASCII are refused by the reader; the source refuses values that contain them one step later, since no selector admits them.
- RunLineage.Resolve: one fixed snapshot of the refs. The bookkeeping that rereads each snapshot at the end, and the selection of the starting RUN for each family, are not modelled.
- Freshness.FrozenJudgesAsLive: artifact and issue requests over HTTP, and the cache of fetched commits, are a fixed content and the set of commits at hand.
- The projection of source observations into attentions (`project_source`) and the registry document.
- PilotWalk.PilotMembers: the call, byte and time budgets of the Git runner, and the planning record that permits the pilot.
- AuditAdmission.Authenticator.Authenticate: one thread; calls of other threads are steps of the runs that the lemmas speak of. The selection of the audit itself is fixed terms.
- AuditAdmission.AdmittedOnceApart: does not promise one ADMIT for calls that overlap, because two are accepted then.
- ExecutorBoundary.StepKeeps: the attribute comparisons of `check` are one step with one boolean for all of them, and thread ids are not reused.
- The checks of `invoke` before a frame is made, and the budget latch of the prospective runtime.
- BrainAttempt.Perform: the advisory consultation and its own use of the provider; request construction, response validation and the audit profiles are functions of the environment.
- AcquisitionGuard.Guard.Check: URL and address grammars are parameters. A write puts texts into a list; other JSON values in it, an adapter that reaches into the closure of the guard, and writes after the report is made are not modelled.
- AcquisitionRecords.TargetOrderIsForgotten: the request validator sees the targets as a set.
- Verification records and test-command coverage in packages: opaque functions of the record and the command.
- YAML and ZIP reading, subprocesses, prompts, command lines, diagnostic scripts.
