# CargoMesh core: models and proofs

CargoMesh moves logistics transactions through carrier portals. This project models the parts of it
that carry its hard guarantees, and proves those guarantees over all inputs, all runs or all reachable
states. `dafny verify dfyconfig.toml` checks everything.

| files | what they model |
|---|---|
| FencedRegister, TaskQueue, TaskQueueSafety, TaskQueueAnswers | the runner queue: leases that expire, renewals, fencing tokens, recovery; it refines an abstract fenced register |
| AttendedTasks, AttendedTasksSafety, AttendedTasksAnswers | the attended-task store, a second implementation of the same register |
| RunnerRegistry, RunnerRegistryAnswers, Fleet | one-time enrolment, revocation, and the queue composed with the registry it asks |
| Edifact, EdifactRoundTrip, EdifactGrammar, EdifactLanguage | the EDIFACT tokenizer and parser, a printer, and the grammar of clause 6 and Annex B of ISO 9735:1988 as far as the parser enforces it |
| RepairLedger, RepairLedgerAnswers, RepairSandbox, RepairSandboxSafety, RepairSandboxAnswers, RepairSandboxOverlap | the seven-dimension reserve-then-finalize ledger, the sandbox that spends from it, and its attempts interleaved |
| RepairLifecycle, RepairLifecycleSafety, RepairLifecycleOverlap, RepairLifecycleStages | the digest-linked release chain, canary, promotion and rollback of one slot, and canaries and promotions interleaved |
| Routing, RoutingProperties, RoutingOrder, RoutingBounds, RoutingFitness | gates, floor-division scores, total-order ranking |
| RouteHealth, RouteHealthProperties | health derived from the append-only outcome log |
| AuditChain, AuditChainSafety | per-tenant hash chains |
| Migrations | breadth-first search over registered schema steps, and the derivation along its path |
| AdapterFactory, AdapterFactoryProperties, AdapterFactoryAnswers, NavigationPath | the compiler from demonstrations to bindings, and from bindings to browser recipes |
| Wrappers, Text, Sorting | results, the text order, insertion sort and its laws |

A store is a class whose fields are its tables. Each method is one transaction and is proved equal to a
`...Step` function of the old tables; a store error leaves them unchanged. The theorems are about runs of
those functions, and for every operation some law says when it succeeds and what it does in terms of fields,
histories or an independent definition. Clocks are integers in microseconds and do not run backwards where a theorem says
`Monotone`. Digests are functions that are assumed free of collisions only where a theorem says so. What
collaborators, random sources and the storage answer is a parameter.

## What the proofs found

- Renewal trusts the expiry in the lease it is handed. `TaskQueueSafety.RenewalRevivesExactly` says which
  leases revive a lapsed task. A revived task stays with its runner and token, so the queue theorems hold
  for runs that renew made-up leases too.
- A completion without a clock trusts the date of its receipt, so a receipt dated before the expiry completes
  a task whose lease has lapsed (`TaskQueueSafety.LateCompletionExactly`, `LateCompletionExample`). It is still
  the last holder's result: nobody else was let in since, and nobody will be.
- An empty attempt identifier defeats the sandbox's replay check, because the ledger files the row under
  the request digest while the check looks for the empty key. Repeats call the model again and are not
  charged (`RepairSandboxSafety.RepeatReachesGatewayIff`, `AttemptIsChargedExactly`).
- The sandbox's replay check and its reservation are two transactions, so attempts that overlap can call the
  model more than once under one identifier. `RepairSandboxOverlap.CalledAtMostOnceIff` says exactly when;
  however often it is called, the reservation is charged once.
- A promotion trusts the decision it is handed, and repeats its deployment call if recording the answer
  failed (`PromotionRepeatsIff`, `MadeUpDecisionPassesIff`). Lifecycle steps do not check that a candidate
  or proposal is the one an earlier transition recorded, and no theorem claims it.
- Promotions of one request that overlap call the deployment once each
  (`RepairLifecycleOverlap.CalledAtMostOnceIff`, `TwoPromotionsCallTwice`), and the slot follows the last call
  even where the chain has recorded another answer (`LastCallOwnsSlot`, `PromotedWithBaseInSlot`).
- A reservation key the ledger refuses leaves its transaction open, and the next call on the ledger fails. If
  that is the charge of an attempt already answered, its reservation stays RESERVED
  (`RepairSandboxOverlap.StaysReservedIff`, `RefusedKeyDropsCharge`).
- A revocation between a queue's question to the registry and its commit does not stop that one lease
  (`Fleet.RevocationIsFinal`, `RevokedWhileAcquiring`).
- The envelope's segment count is one more than the number of segments on the wire, so a document of
  exactly 4096 segments, which the tokenizer admits, is refused when its envelope is issued
  (`EdifactGrammar.SizeDecides`, `FullInterchangeIsRefused`).
- UNA may announce a line break as terminator, and no document can then be read; or as release, and a tag
  that would have to be released cannot (`EdifactRoundTrip.RoundTrip`, `LineBreakReleaseExample`).
- A segment whose text begins with UNA escapes the closed vocabulary of UN tags
  (`EdifactRoundTrip.ControlTagAcceptedIff`).
- The message of a refused health list depends on its order (`RoutingOrder.OrderNeverShowsIff`).
- Dropping rows at the end of an audit chain leaves a chain that verifies (`AuditChain.PrefixesChained`).
- A READY specification cannot be built with a select binding, nor under a navigation path that the options
  accept and the recipe does not (`BuildsIffPathAndFills`, `BarePathNeverBuilds`). A resolution of an unknown
  candidate is an error rather than an ambiguity (`UnknownSelectionIsRefused`).

## Model

| member | source | states |
|---|---|---|
| TaskQueue.SQLiteTaskStore.constructor | src/cargomesh/runner/task_store.py:50-75 | A new queue holds no task; the lease length is positive and at most an hour. |
| TaskQueue.SQLiteTaskStore.Enqueue | src/cargomesh/runner/task_store.py:112-152 | The whole new table and answer: a new task is stored QUEUED with token 0, an identical repeat is returned, any other reuse of the identifier is a conflict and changes nothing. |
| TaskQueue.SQLiteTaskStore.Acquire | src/cargomesh/runner/task_store.py:154-222 | The whole new table and answer: only the least queued task identifier is looked at; past its deadline it expires, otherwise it is leased under the next token with no heartbeat; an authorizer that refuses or fails leaves the table alone. |
| TaskQueue.SQLiteTaskStore.Renew | src/cargomesh/runner/task_store.py:224-252 | The whole new table and answer of a renewal, decided by the expiry carried by the lease passed in. |
| TaskQueue.SQLiteTaskStore.RecordHeartbeat | src/cargomesh/runner/task_store.py:254-284 | The whole new table and answer of a heartbeat: accepted only from the current runner and token before expiry, and then it replaces the earlier one. |
| TaskQueue.SQLiteTaskStore.Complete | src/cargomesh/runner/task_store.py:286-324 | The whole new table and answer of a completion: first result stored, exact replay returned, anything else refused. |
| TaskQueue.SQLiteTaskStore.Recover | src/cargomesh/runner/task_store.py:326-387 | The whole new table and answer of a recovery: waits for the expiry, then requeues, expires or sends to verification by the last heartbeat. |
| TaskQueueSafety.QueueRefinesRegister | src/cargomesh/runner/task_store.py:154-380 | Every run of the queue with a non-decreasing wall clock, whatever leases are renewed in it and whatever dates its receipts carry, is for every task a legal history of the abstract fenced register, ending in the abstraction of its row. |
| TaskQueueSafety.AtMostOneHolder | src/cargomesh/runner/task_store.py:196-246 | At any instant all unexpired leases issued for a task name the same runner and token, and the token is the number of acquisitions. |
| TaskQueueSafety.TokenCountsAcquisitions | src/cargomesh/runner/task_store.py:196-216 | In every reachable state the stored token equals the number of times the task was acquired. |
| TaskQueueSafety.RegrantOnlyAfterSafeRecovery | src/cargomesh/runner/task_store.py:337-380 | A second or later lease follows a recovery that came after the expiry of the grant just before, whose last accepted heartbeat under that very token said the boundary was not crossed and carried a checkpoint. |
| TaskQueueSafety.ResultIsFinal | src/cargomesh/runner/task_store.py:296-318 | A stored result carries the highest token granted and its holder; completing again answers the stored result for the identical receipt and a conflict for every other, and changes nothing. |
| TaskQueueSafety.ClosedForever | src/cargomesh/runner/task_store.py:296-380 | VERIFYING, EXPIRED and COMPLETED rows never change again and are never leased again. |
| TaskQueueSafety.IssuedRenewalIsLive | src/cargomesh/runner/task_store.py:230-246 | A renewal of an issued lease succeeds only while the stored expiry has not passed. |
| TaskQueueSafety.RenewalRevivesExactly | src/cargomesh/runner/task_store.py:493-510 | A lapsed row is revived exactly by a lease that names its current runner and token and claims to be unexpired; such a lease was never issued. |
| TaskQueueSafety.RevivalExample | src/cargomesh/runner/task_store.py:493-510 | A concrete run in which a made-up lease renews a task that lapsed. |
| TaskQueueSafety.LateCompletionExactly | src/cargomesh/runner/task_store.py:286-318 | A lapsed row that nobody recovered is completed exactly when no clock is given, the receipt names the current runner and token, and it is dated before the expiry. |
| TaskQueueSafety.LateCompletionExample | src/cargomesh/runner/task_store.py:291 | A run in which a lease lapses at 10, the clock shows 100, and a receipt dated 5 completes the task. |
| TaskQueueSafety.AcceptedResultIsHolders | src/cargomesh/runner/task_store.py:296-318 | A result accepted in any run, late or not, carries the number of grants as its token, and every lease under that token was issued to its runner. |
| TaskQueueSafety.StepOnTask | src/cargomesh/runner/task_store.py:154-380 | Every single operation, seen from one task, is one permitted step of the register and keeps the row invariant. |
| TaskQueueSafety.RecoveryFollowsLastBeat | src/cargomesh/runner/task_store.py:326-387 | In every run a recovery succeeds exactly on a leased task whose expiry has come, by identifier or by a lease of the current runner and token; the task is queued again if and only if the last heartbeat since the grant denies the boundary and carries a checkpoint, and is sent to verification otherwise, with action, checkpoint and reason from that heartbeat. |
| TaskQueueSafety.GrantedIff | src/cargomesh/runner/task_store.py:154-222 | A lease is granted exactly on the first queued task, before its deadline, to an authorized runner, while tokens last; it is the next token's and lasts from now for the whole length, and a refusal changes nothing. |
| TaskQueueSafety.RecoveredIsLeasedAgain | src/cargomesh/runner/task_store.py:154-387 | A task requeued by a safe recovery that then comes first and is not yet due is leased to the next authorized runner under the next token. |
| TaskQueueAnswers.BeatAcceptedIff | src/cargomesh/runner/task_store.py:254-284 | In every run a heartbeat is accepted exactly from the holder of the abstract register while its lease runs, and changes nothing but the last beat. |
| TaskQueueAnswers.RenewedIff | src/cargomesh/runner/task_store.py:224-252 | In every run a renewal succeeds exactly for the register's holder and token while the lease it shows runs, and extends it from now for the whole length. |
| TaskQueueAnswers.CompletedIff | src/cargomesh/runner/task_store.py:286-324 | In every run a first result is accepted exactly from the register's holder while its lease runs at the judged time, and closes the task. |
| TaskQueueAnswers.EnqueuedIff | src/cargomesh/runner/task_store.py:112-152 | A task is taken exactly if it is due after its creation and its identifier is free or holds that very task. |
| AttendedTasks.SQLiteAttendedTaskStore.constructor | src/cargomesh/channels/human.py:212-241 | A new store holds no record; leases last between a second and an hour. |
| AttendedTasks.SQLiteAttendedTaskStore.Create | src/cargomesh/channels/human.py:243-280 | The whole new table and answer of creating a task: stored open, an identical repeat answers the record, other content is a conflict. |
| AttendedTasks.SQLiteAttendedTaskStore.Claim | src/cargomesh/channels/human.py:301-359 | The whole new table and answer of a claim: refused while another lease is live or the task is terminal, or if the lease cannot be issued to the principal; otherwise the next token is granted. |
| AttendedTasks.SQLiteAttendedTaskStore.Complete | src/cargomesh/channels/human.py:361-429 | The whole new table and answer of a completion or rejection, with the order of all its refusals. |
| AttendedTasksSafety.StoreRefinesRegister | src/cargomesh/channels/human.py:301-429 | Every run of the store is, for every task, a legal history of the same fenced register, although it regrants on expiry alone; unlike the queue it never takes a result late. |
| AttendedTasksSafety.StepOnTask | src/cargomesh/channels/human.py:301-429 | Every single operation, seen from one task, is one permitted step of the register and keeps the record invariant. |
| AttendedTasksSafety.AtMostOneHolder | src/cargomesh/channels/human.py:316-353 | At any instant all unexpired leases issued for a task name the same principal and token, and the token is the number of grants. |
| AttendedTasksSafety.TerminalForever | src/cargomesh/channels/human.py:378-423 | A completed or rejected record never changes again. |
| AttendedTasksSafety.ResultIsFinal | src/cargomesh/channels/human.py:624-656 | A stored result carries the highest token and its holder; a completion answers it if and only if lease, token, principal, claims, note and verdict are the stored ones, and nothing changes either way. |
| AttendedTasksSafety.ReplayReturnsResult | src/cargomesh/channels/human.py:378-423 | Repeating the call that stored the result returns the stored record at any later time. |
| AttendedTasksAnswers.ClaimedIff | src/cargomesh/channels/human.py:301-359 | In every run a claim is granted exactly on a task of that tenant and environment without a result, to a principal that can be named, once the register's last lease has run out and while tokens last; then under the next token. |
| AttendedTasksAnswers.CompletedIff | src/cargomesh/channels/human.py:361-429 | In every run a first completion or rejection is accepted exactly from the register's holder while its lease runs, with a value for each required claim and no other within the limits, and is stored with all it brought. |
| AttendedTasksAnswers.CreatedIff | src/cargomesh/channels/human.py:243-280 | A task is taken exactly with one to thirty-two distinct required claims under a free identifier or as the very same task again. |
| FencedRegister.StepInv | src/cargomesh/runner/task_store.py:493-510 | Every permitted step of the abstract register keeps its invariant. |
| FencedRegister.OneLiveHolder | src/cargomesh/runner/task_store.py:493-510 | Under the invariant unexpired leases agree on owner and on the highest token. |
| FencedRegister.ResultBoundToLastGrant | src/cargomesh/runner/task_store.py:296-318 | The one result belongs to the highest token granted and to its owner. |
| FencedRegister.BehaviourSafe | src/cargomesh/runner/task_store.py:196-318 | In every legal history the token counts the grants and at most one result is taken. |
| FencedRegister.PrefixEvolves | src/cargomesh/runner/task_store.py:296-318 | No continuation of a history changes a result or grants after it. |
| RunnerRegistry.SQLiteRunnerRegistry.constructor | src/cargomesh/runner/registry.py:118-135 | A new registry is empty. |
| RunnerRegistry.SQLiteRunnerRegistry.IssueChallenge | src/cargomesh/runner/registry.py:137-183 | The whole new state and answer of issuing a challenge. |
| RunnerRegistry.SQLiteRunnerRegistry.Enroll | src/cargomesh/runner/registry.py:205-303 | The whole new state and answer of an enrolment: challenge and runner change together or not at all. |
| RunnerRegistry.SQLiteRunnerRegistry.SetHealth | src/cargomesh/runner/registry.py:453-516 | The whole new state and answer of revoking, heartbeating or going offline. |
| RunnerRegistry.StepKeepsCount | src/cargomesh/runner/registry.py:224-288 | Every operation keeps runners and consumed challenges equal in number. |
| RunnerRegistry.EnrollConsumesOne | src/cargomesh/runner/registry.py:224-288 | A successful enrolment consumes exactly one fresh challenge and adds exactly one runner. |
| RunnerRegistry.StepInv | src/cargomesh/runner/registry.py:205-303 | Every operation keeps the registry invariant. |
| RunnerRegistry.ChallengeUsedOnce | src/cargomesh/runner/registry.py:242-245 | A consumed challenge stays consumed and every later enrolment with it fails and changes nothing. |
| RunnerRegistry.StepEvolves | src/cargomesh/runner/registry.py:467-507 | Enrolled identities never change and a revoked record never changes at all. |
| RunnerRegistry.RevokedNeverAuthorized | src/cargomesh/runner/registry.py:185-203 | A revoked runner is authorized for no scope and no capability in any later state. |
| RunnerRegistryAnswers.IssuedIff | src/cargomesh/runner/registry.py:137-183 | A challenge is issued exactly for a lifetime of a second to an hour under a free identifier, and expires that much later. |
| RunnerRegistryAnswers.EnrolledIff | src/cargomesh/runner/registry.py:205-303 | A runner is enrolled exactly by an unused, unexpired challenge of its scope with its token, once; it is then online and the challenge is spent. |
| RunnerRegistryAnswers.ReportedIff | src/cargomesh/runner/registry.py:467-507 | In every run a health report is taken exactly from an enrolled runner in its own scope, and from a revoked one only its revocation again; the stored health is then the one reported. |
| RunnerRegistryAnswers.AuthorizedIff | src/cargomesh/runner/registry.py:185-203 | A runner is authorized exactly if it is enrolled in that scope, online, and has the capability. |
| RunnerRegistryAnswers.EveryRunnerWasInvited | src/cargomesh/runner/registry.py:205-303 | Every runner of every run was enrolled in it by a challenge issued in it for that scope, with its token, before it expired. |
| Fleet.GrantWasAuthorized | src/cargomesh/runner/task_store.py:178-195 | Every lease granted by the queue over the registry went to a stored runner whose identity names the task's very scope, whose health was ONLINE and whose capabilities include the task's, when its acquisition asked, with the queue then as it is at the grant. |
| Fleet.OfferedToAnyoneFit | src/cargomesh/runner/task_store.py:178-216 | While tokens last, the first queued undue task is leased to every such runner, and any other runner is refused and changes nothing. |
| Fleet.HalvesAreWhole | src/cargomesh/runner/task_store.py:154-222 | Asking the registry and committing, taken without interruption, are the whole acquisition. |
| Fleet.QueueRunAfter | src/cargomesh/runner/task_store.py:154-222 | A run of queue and registry together is a run of the queue alone under the answers the registry gave, so every queue theorem applies to it. |
| Fleet.RegistryInv | src/cargomesh/runner/registry.py:205-303 | In every composed run the registry invariant holds. |
| Fleet.RunnersMatchConsumedChallenges | src/cargomesh/runner/registry.py:224-288 | In every state there are as many runners as consumed challenges. |
| Fleet.RevocationIsFinal | src/cargomesh/runner/registry.py:467-507 | After revocation a runner is never made online again; it is granted no further lease, or one if and only if its acquisition was under way with the registry's consent and commits. |
| Fleet.RevokedWhileAcquiring | src/cargomesh/runner/registry.py:467-507 | Every acquisition that would be granted is granted still when the runner is revoked between its question and its commit. |
| Fleet.ChallengeEnrollsOnce | src/cargomesh/runner/registry.py:242-245 | Once consumed, a challenge enrols nobody, however the run continues. |
| Edifact.SplitElements | src/cargomesh/channels/edi.py:375-393 | The element loop computes the element specification, with a dangling release character as the only error. |
| Edifact.CutSegments | src/cargomesh/channels/edi.py:335-350 | The segment loop computes the scanning specification: raw segments, unfinished text and release state. |
| Edifact.SplitSegments | src/cargomesh/channels/edi.py:325-372 | The tokenizer computes the tokenizing specification. |
| Edifact.ScanToEnd | src/cargomesh/channels/edi.py:231-239 | The inner loop finds the first UNT, or the error met before it. |
| Edifact.ParseMessages | src/cargomesh/channels/edi.py:225-267 | The cursor loop reads the messages from the first segment after UNB. |
| Edifact.ParseEdifact | src/cargomesh/channels/edi.py:183-282 | The parser computes the document specification, error by error. |
| EdifactRoundTrip.RoundTrip | src/cargomesh/channels/edi.py:325-393 | For separators UNA can announce, printing any list of allowed segments, with any line breaks between and after them, and tokenizing gives the same tags and elements if the terminator is no line break and no line-break release stands before a tag, and fails otherwise. |
| EdifactRoundTrip.LineBreakReleaseExample | src/cargomesh/channels/edi.py:338-348 | With a line feed as release and B as element separator, a printed BGM segment does not come back. |
| EdifactRoundTrip.ControlTagAcceptedIff | src/cargomesh/channels/edi.py:357-365 | A segment whose tag begins with UN is read if and only if the tag is one of the four envelope tags or the raw text begins with UNA, which with separators other than U, N and A means that the tag does. |
| EdifactRoundTrip.ControlTagExamples | src/cargomesh/channels/edi.py:357-365 | UNAS is read where UNS is refused. |
| EdifactRoundTrip.PrintInjective | src/cargomesh/channels/edi.py:325-393 | Two lists that the separators can carry and that print alike are equal. |
| EdifactRoundTrip.ElementsOfPrinted | src/cargomesh/channels/edi.py:375-393 | Reading the elements of printed text gives back the elements, whatever characters they hold. |
| EdifactRoundTrip.ScanPrinted | src/cargomesh/channels/edi.py:335-350 | Scanning printed text finds exactly the printed raw segments. |
| EdifactRoundTrip.ScanAppend | src/cargomesh/channels/edi.py:335-350 | Scanning is compositional: the second part continues where the first stopped. |
| EdifactRoundTrip.LineBreaksBetweenSegments | src/cargomesh/channels/edi.py:338-348 | In any text, line breaks inserted at a segment boundary change nothing. |
| EdifactRoundTrip.LineBreakTerminatorRejectsAll | src/cargomesh/channels/edi.py:310-334 | A service string may announce a line break as terminator, and then every text is rejected as truncated. |
| EdifactGrammar.ParserSound | src/cargomesh/channels/edi.py:193-276 | Whatever is accepted is an interchange of the grammar, and the envelope is the one of its blocks. |
| EdifactGrammar.ParserComplete | src/cargomesh/channels/edi.py:193-276 | Every interchange of the grammar is accepted with that envelope. |
| EdifactGrammar.AcceptsExactlyTheGrammar | src/cargomesh/channels/edi.py:193-276 | Accepted if and only if UNB, one or more UNH to UNT blocks and UNZ with matching references, distinct message references, right counts and fewer than 4096 segments. |
| EdifactLanguage.AcceptsExactlyTheLanguage | src/cargomesh/channels/edi.py:193-276 | A list of segments is accepted if and only if it is an interchange spelt out with character classes, decimal counts and all limits in numbers. |
| EdifactLanguage.EnvelopeTells | src/cargomesh/channels/edi.py:60-182 | The envelope of an accepted interchange names its references, describes every segment of every message in order by tag, element lengths and size, and counts one segment more than the wire carries. |
| EdifactLanguage.DocumentIff | src/cargomesh/channels/edi.py:183-308 | A document is accepted exactly within the size and characters allowed, under the separators in force, if its segments are an interchange. |
| EdifactLanguage.AnnouncedIff | src/cargomesh/channels/edi.py:310-323 | The separators in force are five different ones and a blank announced by UNA, or the default ones. |
| EdifactLanguage.SegmentReadIff | src/cargomesh/channels/edi.py:325-373 | A raw segment is read exactly with a tag of the right form and vocabulary and elements within the limits. |
| EdifactGrammar.MessagesPartitionInterior | src/cargomesh/channels/edi.py:134-174 | The messages hold all inner segments in order, and the recorded segment count is one more than the segments on the wire. |
| EdifactGrammar.BlocksUnique | src/cargomesh/channels/edi.py:225-267 | The division into blocks is unique. |
| EdifactGrammar.DocumentRoundTrip | src/cargomesh/channels/edi.py:183-322 | An interchange of the grammar written under separators that UNA announces parses to the envelope of its blocks if the separators carry its segments, and is rejected if they do not. |
| EdifactGrammar.PlainDocumentRoundTrip | src/cargomesh/channels/edi.py:183-322 | An interchange written without UNA under the default separators always parses to the envelope of its blocks. |
| EdifactGrammar.SizeDecides | src/cargomesh/channels/edi.py:134-174 | A list that meets every other clause is accepted below 4096 segments, refused when its envelope is issued at exactly 4096, and refused as too long above. |
| EdifactGrammar.FullInterchangeIsRefused | src/cargomesh/channels/edi.py:134-174 | A concrete interchange of 4096 segments tokenizes and is then refused. |
| EdifactGrammar.ReadIsBlocks | src/cargomesh/channels/edi.py:225-267 | What the cursor reads from any position on is a list of fresh blocks covering everything up to UNZ. |
| EdifactGrammar.BlocksAreRead | src/cargomesh/channels/edi.py:225-267 | Any list of fresh blocks up to UNZ is read by the cursor as exactly those blocks. |
| Migrations.MigrationRegistry.constructor | src/cargomesh/ir/migrations.py:48-49 | A new registry knows no step. |
| Migrations.MigrationRegistry.Register | src/cargomesh/ir/migrations.py:51-57 | A step is added unless it leads to its own version or its edge is known; nothing else changes. |
| Migrations.MigrationRegistry.FindPath | src/cargomesh/ir/migrations.py:59-72 | The search terminates and answers a contiguous chain of registered steps no longer than any other, or its error exactly when no chain exists. |
| Migrations.MigrationRegistry.Derive | src/cargomesh/ir/migrations.py:81-118 | The derived copy is one shortest chain applied end to end and carries the target version; the order of the errors is the original one. |
| Migrations.NextLevel | src/cargomesh/ir/migrations.py:62-71 | Breadth-first levels: all versions one step further were seen while the level was explored. |
| Migrations.ClosedContainsChain | src/cargomesh/ir/migrations.py:62-72 | Versions closed under every step contain the end of every chain. |
| Migrations.Exhausted | src/cargomesh/ir/migrations.py:62-72 | An empty queue means no chain exists. |
| Migrations.FoundIsShortest | src/cargomesh/ir/migrations.py:67-69 | The chain returned is no longer than any chain to the target. |
| Migrations.ApplyAllReaches | src/cargomesh/ir/migrations.py:94-102 | Applying a chain that does not fail ends in its target version. |
| Migrations.AppliedIff | src/cargomesh/ir/migrations.py:94-102 | Applying a path succeeds exactly with the end of a history in which each step answers the payload before it with one of its own version. |
| AuditChain.SQLiteAuditStore.constructor | src/cargomesh/controlplane/audit.py:73-88 | A new store has no rows. |
| AuditChain.SQLiteAuditStore.Append | src/cargomesh/controlplane/audit.py:127-188 | The whole new table and answer: the next record of the tenant, the stored one for a replay, a conflict for other content under a known identifier. |
| AuditChain.SQLiteAuditStore.VerifyChain | src/cargomesh/controlplane/audit.py:244-288 | Valid exactly when every row follows from its predecessor; otherwise the count is the length of the longest verifying prefix and the first row beyond it is named with its fault. |
| AuditChain.PrefixesChained | src/cargomesh/controlplane/audit.py:244-288 | Every prefix of a verifying chain verifies, so truncation at the end does not show. |
| AuditChainSafety.LastDigestBindsChain | src/cargomesh/controlplane/audit.py:258-286 | Two verifying chains of a tenant that end in the same record digest are the same row for row. |
| AuditChainSafety.TamperingShows | src/cargomesh/controlplane/audit.py:258-286 | Changing any row before the last while the last stays makes verification fail. |
| AuditChainSafety.RemovalShows | src/cargomesh/controlplane/audit.py:258-286 | So does removing any run of rows before one that stays. |
| AuditChainSafety.ReachableChainsVerify | src/cargomesh/controlplane/audit.py:151-177 | After any appends by any mix of tenants every tenant's chain verifies, and sequence order is insertion order. |
| AuditChainSafety.TenantsAreIndependent | src/cargomesh/controlplane/audit.py:151-177 | An append for one tenant leaves every other tenant's rows, hence its verification, as they were. |
| AuditChainSafety.ReplayAddsNothing | src/cargomesh/controlplane/audit.py:134-149 | Offering a recorded event again adds nothing and answers the stored record. |
| AuditChainSafety.ConflictingEventIsRefused | src/cargomesh/controlplane/audit.py:134-149 | A recorded identifier refuses every other content. |
| AuditChainSafety.AppendAddsNextRow | src/cargomesh/controlplane/audit.py:151-177 | An append adds nothing or exactly the next row of its own tenant. |
| AuditChainSafety.RecordedIff | src/cargomesh/controlplane/audit.py:127-188 | In every run an event under a new identifier is recorded exactly if its digest is its own and a sequence number is left, as the next row of its tenant linked to the last, and nothing else changes. |
| AuditChainSafety.FollowsIff | src/cargomesh/controlplane/audit.py:244-288 | Verification accepts a row exactly if it is the one row that can stand at its place for some properly digested event of the tenant. |
| Routing.ProfileGates | src/cargomesh/routing/engine.py:137-149 | The first group of gates adds exactly those of its reasons that apply. |
| Routing.ClassGates | src/cargomesh/routing/engine.py:150-163 | The data, risk and freshness gates add exactly those of their reasons that apply. |
| Routing.AssuranceGates | src/cargomesh/routing/engine.py:164-187 | The assurance gates add exactly those of their reasons that apply. |
| Routing.MeasureGates | src/cargomesh/routing/engine.py:126-180 | The measured gates add exactly those of their reasons that apply. |
| Routing.EvaluateCandidate | src/cargomesh/routing/engine.py:119-224 | A candidate's evaluation is its reasons, its effective measures and, when eligible, its scores. |
| Routing.ValidatedHealth | src/cargomesh/routing/engine.py:102-116 | The map built has each candidate's snapshot, or the error is that of the first offending snapshot. |
| Routing.SelectRoute | src/cargomesh/routing/engine.py:46-99 | The decision, or the first error in the original order, computed by the imperative form. |
| RoutingProperties.RefusalDependsOnOrder | src/cargomesh/routing/engine.py:102-116 | A concrete input on which the raised error depends on the order. |
| RoutingOrder.RefusalAgreesIff | src/cargomesh/routing/engine.py:102-116 | All orders of the snapshots are refused or accepted alike if and only if a foreign snapshot and a repeated one of the request do not occur together. |
| RoutingOrder.OrderNeverShowsIff | src/cargomesh/routing/engine.py:54-116 | The whole answer is the same for all permutations if and only if it is not the case that health is read and holds both a foreign and a repeated snapshot. |
| RoutingProperties.HealthAccepted | src/cargomesh/routing/engine.py:102-116 | Health is accepted exactly when identifiers differ and every snapshot matches tenant and time. |
| RoutingProperties.RankingWithout | src/cargomesh/routing/engine.py:63-79 | Removing a candidate removes it from the ranking and disturbs nothing else. |
| RoutingProperties.AddingCandidate | src/cargomesh/routing/engine.py:54-99 | Adding a candidate keeps the relative order of all others; an ineligible one leaves ranking, choice and fallbacks unchanged. |
| RoutingProperties.FallbacksAreSafe | src/cargomesh/routing/engine.py:80-86 | Fallbacks are a bounded subsequence of the ranking after its head, free of approval requirements, and empty unless the request is READ_ONLY. |
| RoutingProperties.FallbacksAreFirst | src/cargomesh/routing/engine.py:80-86 | When reading, an approval-free ranked candidate behind the selected one is a fallback, or there are as many fallbacks as allowed and all of them rank before it. |
| RoutingProperties.RankedBestFirst | src/cargomesh/routing/engine.py:65-100 | The ranking lists the identifiers of exactly the evaluations that carry scores, each once; of any two the earlier has the greater weighted score, or the same and the smaller priority number, or both the same and the lesser identifier. |
| RoutingProperties.SelectedIsBest | src/cargomesh/routing/engine.py:65-100 | The selected candidate carries scores and is better in that sense than every other that does. |
| RoutingFitness.RankedIffFit | src/cargomesh/routing/engine.py:119-238 | A decision ranks exactly the candidates whose health it was given and which meet every gate of request and policy, the reliability gate compared without rounding. |
| RoutingFitness.DecidedIff | src/cargomesh/routing/engine.py:46-118 | A route is decided exactly on one to sixteen different candidates, with at most one snapshot of this tenant and time for each and none for others, among which some candidate meets every gate. |
| RoutingFitness.ScoredIffFit | src/cargomesh/routing/engine.py:119-238 | An evaluation carries scores exactly if health is known and every gate is met. |
| RoutingFitness.ReliabilityGate | src/cargomesh/routing/engine.py:119-238 | Rounding down never decides the reliability gate. |
| RoutingFitness.ScoresMean | src/cargomesh/routing/engine.py:119-238 | Each score of a fit candidate is the exact quotient rounded down once: blended success, latency and cost spared, and their weighted mean. |
| RoutingBounds.EffectiveBetween | src/cargomesh/routing/engine.py:227-237 | With samples, effective success lies between the baseline and the observed rate. |
| RoutingBounds.EffectiveInRange | src/cargomesh/routing/engine.py:227-237 | Effective success is a rate in basis points. |
| RoutingBounds.SuccessNeverLowers | src/cargomesh/routing/engine.py:227-237 | One more success never lowers effective success. |
| RoutingBounds.FailureNeverRaises | src/cargomesh/routing/engine.py:227-237 | One more failure never raises it. |
| RoutingBounds.InverseInRange | src/cargomesh/routing/engine.py:240-243 | The inverse score is in 0 to 10000 and equals the rounded complement inside the allowed range. |
| RoutingBounds.InverseAntitone | src/cargomesh/routing/engine.py:240-243 | A larger latency or cost never scores better. |
| RoutingBounds.WeightedBetween | src/cargomesh/routing/engine.py:202-210 | The weighted score lies between the least and the greatest component. |
| RoutingBounds.EvaluationInRange | src/cargomesh/routing/engine.py:189-224 | Every evaluation has its measures in range, and scores exactly when eligible, all in 0 to 10000. |
| RouteHealth.LeadingFailures | src/cargomesh/routing/store.py:177-181 | The loop counts the failures before the newest success. |
| RouteHealth.SQLiteRouteOutcomeStore.constructor | src/cargomesh/routing/store.py:48-70 | A new log is empty. |
| RouteHealth.SQLiteRouteOutcomeStore.Append | src/cargomesh/routing/store.py:72-117 | The whole new log and answer: appended once, replay returned, other content under a known identifier refused. |
| RouteHealth.SQLiteRouteOutcomeStore.HealthSnapshot | src/cargomesh/routing/store.py:150-208 | The snapshot is derived from the newest outcomes of the window, status and circuit expiry included. |
| RouteHealthProperties.RecordsExactlyOffered | src/cargomesh/routing/store.py:72-104 | Without conflicts exactly the offered outcomes are recorded. |
| RouteHealthProperties.RecordedIff | src/cargomesh/routing/store.py:72-117 | In every run an outcome is taken exactly if nothing else is recorded under its tenant and event, and is recorded once. |
| RouteHealthProperties.ArrivalOrderIrrelevant | src/cargomesh/routing/store.py:133-208 | Two conflict-free histories that offered the same outcomes yield the same snapshot whatever their order. |
| RouteHealthProperties.P95IsNearestRank | src/cargomesh/routing/store.py:174-175 | At least ceil(95n/100) latencies of the window are at or below p95 and fewer than that are strictly below. |
| RouteHealthProperties.P95IsALatency | src/cargomesh/routing/store.py:174-175 | p95 is the latency of some outcome of the window. |
| RouteHealthProperties.ConsecutiveMeaning | src/cargomesh/routing/store.py:177-181 | Consecutive failures are the failures before the newest success. |
| RouteHealthProperties.SnapshotIsValid | src/cargomesh/routing/models.py:283-326 | The derived snapshot always meets the snapshot validator; circuit expiry is present exactly when UNAVAILABLE. |
| RouteHealthProperties.StoreSnapshotsAreValid | src/cargomesh/routing/models.py:283-326 | Whatever the log holds, the snapshot the store issues is one the router accepts as input. |
| RouteHealthProperties.WindowIsNewest | src/cargomesh/routing/models.py:127-145 | On the rows of any log the window holds as many of the tenant's outcomes for the candidate as there are up to the limit, newest first, and none left outside is newer than one inside; ties go by event identifier. |
| RouteHealthProperties.NewestDecideHealth | src/cargomesh/routing/models.py:127-205 | The health derived from any log is told by that window: counts by kind, the rate rounded down once, the greatest recorded time, and the status, which is UNAVAILABLE exactly while the newest threshold outcomes all failed and the newest is cooling down. |
| RepairLedger.SQLiteRepairBudgetLedger.constructor | src/cargomesh/repair/budget.py:93-110 | A new ledger has no rows and no open transaction. |
| RepairLedger.SQLiteRepairBudgetLedger.SumScope | src/cargomesh/repair/budget.py:322-344 | The accumulation loop computes the scope's total charge in all seven dimensions. |
| RepairLedger.SQLiteRepairBudgetLedger.Reserve | src/cargomesh/repair/budget.py:112-199 | The whole new table and answer of a reservation, with the order of its refusals; a refused key leaves the transaction open, and an open one fails the call and is closed. |
| RepairLedger.SQLiteRepairBudgetLedger.Finalize | src/cargomesh/repair/budget.py:211-285 | The whole new table and answer of finalizing a reservation; a transaction left open fails the call and is closed. |
| RepairLedger.LedgerWithinBudget | src/cargomesh/repair/budget.py:126-191 | In every reachable state and dimension each scope's charges fit the one budget that all its rows share. |
| RepairLedger.OneRowCheckSuffices | src/cargomesh/repair/budget.py:146-155 | Any row of a scope carries the budget and request of all of them, so looking at one row suffices. |
| RepairLedger.ReserveInv | src/cargomesh/repair/budget.py:126-191 | A reservation keeps the ledger invariant. |
| RepairLedger.FinalizeInv | src/cargomesh/repair/budget.py:241-277 | Finalizing keeps the ledger invariant. |
| RepairLedger.ScopeUsageUpdate | src/cargomesh/repair/budget.py:322-344 | Replacing a row changes its scope's total by exactly the difference of the charges. |
| RepairLedger.FinalizeFreesDifference | src/cargomesh/repair/budget.py:241-277 | Finalizing frees exactly reserved minus actual, in its own scope only. |
| RepairLedger.ReserveIsIdempotent | src/cargomesh/repair/budget.py:131-145 | Reserving again on the same terms returns the stored row and adds no charge. |
| RepairLedger.NothingLeftOpen | src/cargomesh/repair/budget.py:112-199 | In a run whose reservation keys are all acceptable no transaction is ever left open. |
| RepairLedgerAnswers.WithinBudgetEverywhere | src/cargomesh/repair/budget.py:126-191 | In every run each of the seven dimensions of what a scope has spent is within the limits of the one budget its rows share. |
| RepairLedgerAnswers.ReservedIff | src/cargomesh/repair/budget.py:112-199 | In every run a reservation under a new key succeeds exactly if it is sound, every row of its scope is for the same request and budget, spent and asked fit the budget in every dimension, the key can be filed and no transaction is open. |
| RepairLedgerAnswers.ReservedAgainIff | src/cargomesh/repair/budget.py:131-145 | Under a known key it succeeds exactly on the terms filed, and no row changes. |
| RepairLedgerAnswers.FinalizedIff | src/cargomesh/repair/budget.py:211-285 | In every run a charge is taken exactly for a filed reservation of that scope and request, within what was reserved in every dimension, and if no other charge was made. |
| RepairSandbox.ReplaceFiles | src/cargomesh/repair/sandbox.py:248-277 | The replacement loop yields the overlaid package or the first error in the original order. |
| RepairSandbox.IsolatedRepairSandbox.constructor | src/cargomesh/repair/sandbox.py:87-102 | A new sandbox has called the gateway for no attempt. |
| RepairSandbox.IsolatedRepairSandbox.GenerateAndValidate | src/cargomesh/repair/sandbox.py:104-232 | The ledger, the gateway calls and the answer after one attempt, for every answer of the collaborators. |
| RepairSandboxSafety.AttemptIsChargedExactly | src/cargomesh/repair/sandbox.py:130-185 | Without a model call nothing changes. With one, a fresh reservation is charged exactly the returned outcome's usage, or all of it on a failing exit; an already finalized row is not charged again. |
| RepairSandboxSafety.FinalizeFresh | src/cargomesh/repair/sandbox.py:215-232 | On a fresh reservation finalizing fails only above what was reserved; charging all of it never fails. |
| RepairSandboxSafety.GatewayAtMostOncePerAttempt | src/cargomesh/repair/sandbox.py:104-213 | In every run of attempts one after another, the gateway is called at most once per non-empty identifier and every reservation ends FINALIZED within its budget. |
| RepairSandboxSafety.CallsGatewayIff | src/cargomesh/repair/sandbox.py:104-213 | An attempt reaches the gateway exactly when its inputs prepare, no row of its identifier is in scope, and the reservation succeeds. |
| RepairSandboxSafety.RepeatReachesGatewayIff | src/cargomesh/repair/sandbox.py:187-213 | When attempts come one after another, one that reached the gateway and is submitted again at any later time reaches it again if and only if its identifier is empty and no transaction was left open just before. |
| RepairSandboxSafety.CandidateStaysInScope | src/cargomesh/repair/sandbox.py:235-277 | The candidate has the base package's files, differs from it, only at allowed paths, and holds only bounded strict JSON documents. |
| RepairSandboxSafety.OutcomeMeansGatesPassed | src/cargomesh/repair/sandbox.py:280-342 | A returned outcome changed allowed paths only, is proposed exactly when both gates passed without violations, and its usage fits the reservation and is what the ledger was charged. |
| RepairSandboxAnswers.ValidPathIff | src/cargomesh/repair/sandbox.py:345-355 | The path check accepts exactly relative JSON paths none of whose segments is empty, a dot or two dots. |
| RepairSandboxAnswers.PreparedIff | src/cargomesh/repair/sandbox.py:104-134 | An attempt is prepared exactly on good files that include every allowed path and that the loader identifies as the requested package. |
| RepairSandboxAnswers.OutcomeIff | src/cargomesh/repair/sandbox.py:136-171 | The model's answer becomes an outcome exactly if it is one for the request within the reservation, loads under a proper digest, both gates report, and its usage can be recorded; it is proposed exactly if both passed without violations. |
| RepairSandboxOverlap.MovesInARowAreOneAttempt | src/cargomesh/repair/sandbox.py:104-232 | The four transactions of an attempt, taken without interruption, are the whole attempt with its answer, ledger and calls. |
| RepairSandboxOverlap.EveryInterleavingIsSafe | src/cargomesh/repair/sandbox.py:130-232 | However the transactions of any attempts interleave, refused keys included, the ledger is within its budgets, and a reservation is charged if and only if some attempt that was handed it finished its charge. |
| RepairSandboxOverlap.StaysReservedIff | src/cargomesh/repair/sandbox.py:171-232 | Once no attempt is under way, a reservation is still RESERVED if and only if the charge of every attempt on it met a transaction left open. |
| RepairSandboxOverlap.AllFinalizedIff | src/cargomesh/repair/sandbox.py:171-232 | Once no attempt is under way, all reservations are FINALIZED if and only if each one whose charge was dropped was charged by another attempt. |
| RepairSandboxOverlap.SettledMeansFinalized | src/cargomesh/repair/sandbox.py:171-185 | If every attempt's key is acceptable, every reservation is FINALIZED once no attempt is under way. |
| RepairSandboxOverlap.NothingLeftOpen | src/cargomesh/repair/sandbox.py:187-213 | If every attempt's key is acceptable, no interleaving leaves a transaction open. |
| RepairSandboxOverlap.RefusedKeyDropsCharge | src/cargomesh/repair/sandbox.py:223-232 | Whenever a refused key comes while an attempt that will fail is at the gateway, that attempt is answered, its charge is dropped, and its row stays RESERVED. |
| RepairSandboxOverlap.RefusedKeyExample | src/cargomesh/repair/sandbox.py:223-232 | A run of two attempts from the empty ledger in which that happens. |
| RepairSandboxOverlap.ReachesGatewayOnStoredRowIff | src/cargomesh/repair/sandbox.py:187-213 | An attempt past its replay check that finds a row under its key reaches the gateway if and only if no transaction was left open and it agrees with the row in scope, request, budget and reserved usage; if it has an identifier the row came after its check. |
| RepairSandboxOverlap.CallsAreOneAndJoins | src/cargomesh/repair/sandbox.py:187-213 | The gateway is called once for the row under a key and once more for every attempt that joins the row. |
| RepairSandboxOverlap.CalledAtMostOnceIff | src/cargomesh/repair/sandbox.py:187-213 | Over every interleaving the gateway is called at most once under a ledger key if and only if no attempt ever joins its row. |
| RepairSandboxOverlap.CalledAtMostOncePerIdentifierIff | src/cargomesh/repair/sandbox.py:187-213 | Among attempts that all bring identifiers, the gateway is called at most once under an identifier if and only if no attempt joins its row. |
| RepairSandboxOverlap.TwoChecksTwoCalls | src/cargomesh/repair/sandbox.py:187-213 | Every attempt that could reach the gateway from an empty ledger reaches it twice if submitted twice at once. |
| RepairSandboxOverlap.SettleAnswers | src/cargomesh/repair/sandbox.py:171-185 | An attempt that settles charges an open reservation exactly what it used; on one another attempt has charged, equal usage is a replay and any other a budget failure; over a transaction left open it charges nothing and fails. |
| RepairSandboxOverlap.ChargeAnswers | src/cargomesh/repair/sandbox.py:223-232 | A failing attempt charges everything reserved, unless another attempt has charged it already; its charge is dropped if and only if a transaction was left open, and it is answered its error either way. |
| RepairSandboxOverlap.ChargedOnceForAll | src/cargomesh/repair/sandbox.py:215-232 | Over every interleaving a reservation keeps its place and terms and its charge, once made, never changes. |
| RepairSandboxOverlap.ReturnedIsCharged | src/cargomesh/repair/sandbox.py:171-172 | In every interleaving a returned outcome reports exactly the usage its reservation was charged. |
| RepairLifecycle.SQLiteRepairLifecycle.constructor | src/cargomesh/repair/lifecycle.py:172-201 | A new store has no transitions. |
| RepairLifecycle.SQLiteRepairLifecycle.SelectRows | src/cargomesh/repair/lifecycle.py:293-306 | The rows of one request, in order of insertion. |
| RepairLifecycle.SQLiteRepairLifecycle.LoadChain | src/cargomesh/repair/lifecycle.py:290-320 | The chain is returned exactly when every transition names its predecessor's digest and state. |
| RepairLifecycle.SQLiteRepairLifecycle.Append | src/cargomesh/repair/lifecycle.py:203-262 | The whole new table and answer: one more transition if the table permits it, otherwise nothing changes. |
| RepairLifecycle.RepairLifecycle.constructor | src/cargomesh/repair/lifecycle.py:332-347 | A new coordinator has called neither the executor nor the deployment. |
| RepairLifecycle.RepairLifecycle.RecordCandidate | src/cargomesh/repair/lifecycle.py:349-365 | The state and answer after recording a candidate. |
| RepairLifecycle.RepairLifecycle.RecordValidation | src/cargomesh/repair/lifecycle.py:367-390 | The state and answer after recording a validation, passed or not. |
| RepairLifecycle.RepairLifecycle.RecordProposal | src/cargomesh/repair/lifecycle.py:392-416 | The state and answer after recording a proposal. |
| RepairLifecycle.RepairLifecycle.Approve | src/cargomesh/repair/lifecycle.py:418-453 | The state and answer after an approval, for every answer of the verifier. |
| RepairLifecycle.RepairLifecycle.RunCanary | src/cargomesh/repair/lifecycle.py:455-487 | The state, slot and answer after a canary, for every answer of the executor, the evidence verifier, the deployment and the storage. |
| RepairLifecycle.RepairLifecycle.Promote | src/cargomesh/repair/lifecycle.py:489-530 | The state, slot and answer after a promotion, for every answer of the deployment and the storage. |
| RepairLifecycle.RepairLifecycle.RollbackRelease | src/cargomesh/repair/lifecycle.py:549-569 | The slot is the base package and ROLLED_BACK is recorded, or the rollback raised and FAILED is recorded. |
| RepairLifecycleSafety.ChainsArePaths | src/cargomesh/repair/lifecycle.py:203-320 | In every run, under any storage faults, each chain is a digest-linked path from none; a promoted one went through generated, validated, proposed, approved and canary; the executor ran once per request that reached the canary and never otherwise. |
| RepairLifecycleSafety.PromotedPassedEveryStage | src/cargomesh/repair/lifecycle.py:572-587 | A permitted path to PROMOTED has exactly the six stages in order. |
| RepairLifecycleSafety.AppendNeverCollides | src/cargomesh/repair/lifecycle.py:203-262 | On a path a permitted transition is new, so under collision-free digests its insert succeeds. |
| RepairLifecycleSafety.TerminalForever | src/cargomesh/repair/lifecycle.py:572-587 | PROMOTED, ROLLED_BACK, FAILED and REJECTED are never left. |
| RepairLifecycleSafety.StepAdvances | src/cargomesh/repair/lifecycle.py:349-569 | One operation leaves a request in place, moves it one permitted stage, or ends it from APPROVED through the canary. |
| RepairLifecycleSafety.CanaryPassesIff | src/cargomesh/repair/lifecycle.py:607-632 | A canary passes exactly on verified evidence for the proposal with enough observations, no violation and a success ratio at the threshold, compared without rounding. |
| RepairLifecycleSafety.BecomesPromotedIff | src/cargomesh/repair/lifecycle.py:489-530 | A request becomes PROMOTED exactly by a promotion in scope from CANARY with a passing decision under the configured thresholds that the deployment accepts and the store records; the slot then holds the candidate. |
| RepairLifecycleSafety.PromotionRepeatsIff | src/cargomesh/repair/lifecycle.py:505-530 | The deployment is called for a request again, at once or ever, if and only if the write recording its first answer failed. |
| RepairLifecycleSafety.PromotedOnlyOnEvidence | src/cargomesh/repair/lifecycle.py:455-530 | In every run the deployment is called at most once per request unless a write recording its answer for that request was lost, and a promoted request's canary brought evidence that meets the thresholds unless the write recording that canary's rollback was lost. |
| RepairLifecycleSafety.IssuedDecisionNamesItsEvidence | src/cargomesh/repair/lifecycle.py:455-503 | A decision issued by a canary is honoured only for the proposal whose evidence met the thresholds. |
| RepairLifecycleSafety.MadeUpDecisionPassesIff | src/cargomesh/repair/lifecycle.py:489-569 | After a failed canary a made-up passing decision reaches the deployment if and only if recording the rollback failed. |
| RepairLifecycleSafety.SlotHoldsOutcome | src/cargomesh/repair/lifecycle.py:505-569 | In a run of one request, under any faults, the slot holds the last candidate driven if PROMOTED, the base if ROLLED_BACK, and its initial package before the canary. |
| RepairLifecycleSafety.LastDriverOwnsSlot | src/cargomesh/repair/lifecycle.py:505-569 | In a run of any requests the slot holds the candidate of the request that last drove it if that is PROMOTED, its base if ROLLED_BACK, and its initial package if none has. |
| RepairLifecycleSafety.EveryRunIsSafe | src/cargomesh/repair/lifecycle.py:203-569 | In every run chains are paths, executor runs match them, the slot matches the request that last drove it, and passing decisions rest on evidence. |
| RepairLifecycleStages.StageTakenIff | src/cargomesh/repair/lifecycle.py:349-453 | In every safe state an operation makes a request GENERATED, VALIDATED, REJECTED, PROPOSED or APPROVED if and only if it is that operation for it, from the stage before, with everything matching, the write going through, and: a passed report for VALIDATED, a failed one for REJECTED, a passed one for PROPOSED, and for APPROVED an unexpired proposal, an approving approval and a verifier that answered true. |
| RepairLifecycleStages.CanaryRunsIff | src/cargomesh/repair/lifecycle.py:455-475 | The executor runs exactly for a canary on a matching, unexpired proposal of an APPROVED request once its start is recorded. |
| RepairLifecycleStages.EveryStageWasEarned | src/cargomesh/repair/lifecycle.py:349-475 | In every run each stage a request has behind it was earned by such an operation. |
| RepairLifecycleStages.PromotionWasEarned | src/cargomesh/repair/lifecycle.py:349-530 | A promoted request had a passed report, a proposal for it, a verified approval and an unexpired canary. |
| RepairLifecycleStages.EveryRowRecordsAnOperation | src/cargomesh/repair/lifecycle.py:203-262 | Every stored transition of every run records an operation of it, with the digest of what that brought, its event code and its time. |
| RepairLifecycleStages.AppendedIff | src/cargomesh/repair/lifecycle.py:203-262 | On any table a transition is stored exactly if the write goes through, the chain is linked throughout, it is permitted, and its digest is free. |
| RepairLifecycleStages.LastDigestFixesChain | src/cargomesh/repair/lifecycle.py:290-320 | A chain that loads is fixed by the digest of its last transition: no other chain loads and ends in it. |
| RepairLifecycleStages.DigestsAreTheirOwn | src/cargomesh/repair/lifecycle.py:203-262 | Whatever the digests are, no two stored transitions of a run share one. |
| RepairLifecycleStages.DecisionNames | src/cargomesh/repair/lifecycle.py:607-634 | The decision a canary issues names its proposal, the thresholds and the evidence it rests on, or none, and is sealed over all it says. |
| RepairLifecycleStages.PromotionAnswers | src/cargomesh/repair/lifecycle.py:489-530 | A promotion answers exactly with the transition it recorded, and fails exactly if it recorded none. |
| RepairLifecycleStages.CanaryAnswers | src/cargomesh/repair/lifecycle.py:455-487 | A canary answers with the decision of its run, and with the rollback it recorded exactly if that did not pass. |
| RepairLifecycleStages.EveryStageWasEntered | src/cargomesh/repair/lifecycle.py:349-475 | The same over every interleaving: each stage a request has behind it was earned by an operation that entered. |
| RepairLifecycleOverlap.MovesInARowAreOneOperation | src/cargomesh/repair/lifecycle.py:349-569 | The transactions and calls of any operation, taken without interruption, are the whole operation, and leave it ended. |
| RepairLifecycleOverlap.ChainsStayPaths | src/cargomesh/repair/lifecycle.py:203-320 | However canaries, promotions and the other stages interleave, every chain stays a digest-linked path; the executor runs at most once per request, and exactly once if it is past approval and no started canary has yet to run; a chain that has ended was ended by exactly one operation. |
| RepairLifecycleOverlap.EndsPersist | src/cargomesh/repair/lifecycle.py:572-587 | Whatever interleaves, a promoted, rolled back, failed or rejected request stays so. |
| RepairLifecycleOverlap.CalledAtMostOnceIff | src/cargomesh/repair/lifecycle.py:489-530 | Over every interleaving, once each promotion of a request that was let through has called, the deployment was called at most once for the request if and only if none was let through while an earlier one had not recorded its end; without such an overlap it is at most once at any time. |
| RepairLifecycleOverlap.TwoPromotionsCallTwice | src/cargomesh/repair/lifecycle.py:501-511 | A run from the start, under any usable thresholds, in which two promotions on the canary's own decision call the deployment twice. |
| RepairLifecycleOverlap.LastCallOwnsSlot | src/cargomesh/repair/lifecycle.py:505-569 | Over every interleaving the slot holds what the last call on the deployment left; it agrees with the chain of that call's request if the calling operation recorded its end. |
| RepairLifecycleOverlap.PromotedWithBaseInSlot | src/cargomesh/repair/lifecycle.py:455-530 | A run in which a promotion on a made-up decision is recorded while the canary runs, the canary then rolls back, and a PROMOTED request is left with its base package in the slot. |
| AdapterFactory.Compile | src/cargomesh/factory/spec.py:192-327 | The compiler computes the specification or the first error, from the loop over the captured actions. |
| AdapterFactory.JudgeAction | src/cargomesh/factory/spec.py:223-312 | What one captured action contributes: an ambiguity, a binding, both or nothing. |
| AdapterFactoryProperties.ReadyIffCovered | src/cargomesh/factory/spec.py:200-327 | READY if and only if every captured parameter occurs once, is supported, has agreeing evidence and a reviewed step that is the only identical one or was selected, every resolution answers an open action, and the model limits hold. |
| AdapterFactoryProperties.ReadyBindsEveryCapture | src/cargomesh/factory/spec.py:281-327 | READY bindings are one to one and in order with the captured fill and select actions, each with kind and locator of a reviewed step for the same parameter and agreeing evidence. |
| AdapterFactoryProperties.JudgedCovered | src/cargomesh/factory/spec.py:223-312 | An action contributes a binding and no blocker exactly when it is covered. |
| AdapterFactoryProperties.UnknownSelectionIsRefused | src/cargomesh/factory/spec.py:149-179 | A resolution that selects no candidate makes compilation fail; it never yields an AMBIGUOUS specification. |
| AdapterFactoryAnswers.ReportsObstacle | src/cargomesh/factory/spec.py:223-310 | Every captured action is reported with the first obstacle in its way, told from procedure and evidence, and with nothing if there is none; only an open choice can be resolved. |
| AdapterFactoryAnswers.BoundIff | src/cargomesh/factory/spec.py:275-325 | A captured action is bound exactly if nothing is in its way or only a choice that was made, and then to the sole or the chosen step and to all its evidence. |
| AdapterFactoryAnswers.CompiledIff | src/cargomesh/factory/spec.py:192-328 | Compilation succeeds exactly if all evidence is for captured parameters, every resolution alone answers an open choice with one of its steps, and all is within the limits; an obstacle is no failure but leaves the specification AMBIGUOUS. |
| AdapterFactoryAnswers.ReadyIff | src/cargomesh/factory/spec.py:192-328 | Compilation is READY exactly if every captured action is supported, attested by one value with few references, and the procedure's sole step or chosen among few, and nothing else was offered. |
| AdapterFactoryAnswers.CertifiedIff | src/cargomesh/factory/spec.py:330-338 | A ready specification is certified exactly by a reviewer with a name, and nothing but that changes. |
| AdapterFactoryProperties.IdInjective | src/cargomesh/factory/spec.py:230 | Ambiguity identifiers of different actions differ. |
| AdapterFactoryProperties.CertifiedBuildsTheSame | src/cargomesh/factory/spec.py:329-338 | Certification succeeds exactly for a ready specification and an acceptable reviewer, and leaves the recipe as it was. |
| AdapterFactory.BuildRecipe | src/cargomesh/factory/package_builder.py:266-318 | The recipe loop computes the recipe or the first error: the specification, then the navigation path, then the bindings in order. |
| AdapterFactoryProperties.BuildsIffPathAndFills | src/cargomesh/factory/package_builder.py:266-318 | A valid ready specification builds if and only if the navigation path is acceptable and all its bindings are fills; a refused path is the error reported first. |
| AdapterFactoryProperties.BarePathNeverBuilds | src/cargomesh/factory/package_builder.py:94-97 | The options' own model accepts tracking as navigation path, and with it no specification builds. |
| AdapterFactoryProperties.RecipeShape | src/cargomesh/factory/package_builder.py:286-306 | A recipe is one navigate, one fill per binding in strictly ascending order of parameter, and one extract. |
| AdapterFactoryProperties.RecipeIgnoresBindingOrder | src/cargomesh/factory/package_builder.py:286-306 | Specifications with the same bindings in another order build the same recipe. |
| AdapterFactoryProperties.RecipeFillsEachCapturedParameterOnce | src/cargomesh/factory/package_builder.py:219-318 | From capture to recipe: every captured parameter is filled at exactly one place, through the locator of a reviewed fill step for it. |
| AdapterFactoryAnswers.LocatorsKept | src/cargomesh/factory/package_builder.py:309-324 | Nothing of a locator is lost on its way into the recipe; one by role is looked for as a text box. |
| AdapterFactoryAnswers.BuiltIff | src/cargomesh/factory/package_builder.py:219-306 | Any specification builds exactly if it is ready, answers every ambiguity, binds something and only fills, under an acceptable path. |
| NavigationPath.SegmentIff | src/cargomesh/adapters/contracts.py:97-98 | The segments of a decoded path are exactly the words that stand between dividers or its ends; the parent check is the case of two dots. |
| NavigationPath.AcceptableIff | src/cargomesh/adapters/contracts.py:88-107 | A navigate action accepts exactly text from the root of the origin without blanks, backslashes or a filled fragment, in whose decoded path up to the query two dots nowhere stand alone. |
| NavigationPath.EscapeDecodes | src/cargomesh/adapters/contracts.py:97 | An escape stands for the character whose code its two hexadecimal digits are, and one of a byte above 127 for none of the characters looked for. |
| NavigationPath.ParentSegmentRefused | src/cargomesh/adapters/contracts.py:88-107 | A parent segment anywhere before the query is refused in every spelling that decodes to it, between dividers in every spelling of theirs, slash or backslash, escaped or not. |
| NavigationPath.PathExamples | src/cargomesh/adapters/contracts.py:30-107 | Four refused paths and two accepted ones. |
| NavigationPath.DividerSpellings | src/cargomesh/adapters/contracts.py:97 | The slash and the escaped slash and backslash, in either case, are dividers. |
| Sorting.SortOfPermutation | src/cargomesh/routing/engine.py:63-78 | Sorting permuted input without ties gives the same list. |
| Sorting.SortFilter | src/cargomesh/routing/engine.py:63-78 | Removing elements before or after sorting gives the same list. |

## Left out

- SQLite, WAL, threads and locks: each store method is one atomic step. The sandbox's attempts, the lifecycle's canaries and promotions, and the acquisition that asks the registry are also modelled as the separate transactions they are. The lifecycle store's failing reads and writes are modelled; the other stores' I/O errors and closed stores are not.
- Rows damaged in place: modelled for the audit chain only. Other stores' decoding and integrity errors are left out, because their rows are written by the modelled methods.
- JSON text, SHA-256 and canonical encodings: digests are functions of the content they cover, and a digest that only repeats a record's own content is not stored beside it.
- Field patterns, lengths and time zones of the data models: taken as given, except where a method checks them itself or the limit decides an answer.
- Identifiers with surrounding white space: the original signs them before stripping and then refuses them; the models refuse them at once.
- Validation errors raised inside a transaction escape the original's handlers in the budget ledger (a refused reservation key), the registry (a refused runner record), the queue (a renewal whose reissued lease is invalid) and the attended store (a claim whose lease cannot be issued, as for a principal with surrounding white space). They leave the transaction open, so that the next call fails once. The ledger's is modelled. In the other three such a call leaves the tables as they were and so does the failing one after it, which the theorems treat as a call not made.
- Digits and spaces outside ASCII in a candidate digest, which the original's number parser takes as well before the candidate's own model refuses them.
- Exits by `BaseException` (interrupts) in the sandbox and the lifecycle.
- Secret patterns in attended-task instructions and notes, evidence observations made from completed tasks, and listing and reading methods without decisions.
- Enrolment tokens as single-use objects and their hashing: a challenge is matched by its token.
- Byte decoding of EDI input: text is a sequence of characters; the tag vocabulary, size limits and allowed characters are modelled as written.
- Bytes, file names and digests of generated packages, and adapter certification records: the model ends at the recipe.
- `application/transactions.py`, HTTP, Playwright, Temporal, policy evaluation, identity, marketplace, supply chain, usage metering, SLO arithmetic and file backup: thin layers over libraries, or single checks that would add only easy members.
- RepairSandboxSafety.RepeatReachesGatewayIff: is about attempts one after another; RepairSandboxOverlap says what overlapping attempts do.
- RepairLifecycleSafety.SlotHoldsOutcome: is about one request; LastDriverOwnsSlot is about requests that share the slot.
