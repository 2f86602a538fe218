# Verified models of the sandbox node and its tools

This project states, in Dafny, what several of the repository's state machines and algorithms decide, and
proves that they decide it for every input, every run and every point at which a process can stop. The
methods follow the source's own statements; the functions beside them say what the methods compute; the
lemmas say what that means.

`dafny verify dfyconfig.toml` checks everything.

## The components

**Schema drift comparator** (`SchemaMeaning`, `SchemaDrift`, `SchemaPaths`, `SchemaEdits`, `SchemaBundle`,
`SchemaProse`, over `Json`).
`scripts/upstream-contracts.py` walks two cyclic reference graphs with a visited set. Agreement is the
largest relation that matches one level down after unfolding `$ref`s, with its siblings as `allOf` (section
8.2.3.1 of JSON Schema Core 2020-12). A comparison that finishes is silent exactly for agreeing bundles. The
same proof covers three readings of a report, chosen by the ghost parameter `strength`: no finding at all, only
informational ones, or none that is breaking. Agreement is also characterised by paths, since no finite walk
down both graphs finds a difference, and by edits: what each elementary change of a schema does to it.

**Guest hook scanner** (`HookScanner`, `JsonText`, `HookLimit`, `HookRefusals`, `Decimal`).
`deploy/kata/pids_hook.c` finds a member of an object without parsing. For every object of the JSON syntax
(sections 2, 4 and 7 of RFC 8259) nested at most 128 deep it finds exactly the wanted top-level member, and the
limit the engine printed comes back as the same number. A state that breaks off is refused and never answered with
the default.

**Launch lease protocol** (`LaunchLease`, `LaunchRuns`, `LaunchMoments`, `LaunchOrigins`, `LaunchOutcomes`).
Claims, finishes and aborts over a durable record. One operation at a time holds the mutex and goes through its
stages (read, ask the engine, read the reservations, draw a lease, write) while the engine, the reservations and
the clock go on beside it, replies and writes are lost, and the node stops between any two stages.

**Credential proxy** (`TokenTables`, `TokenService`, `OAuthGenerations`, `CredentialProxy`, `CredentialRuns`).
Two indexes over one set of token records, multi-step issue and restore, absorbing revocation, and refreshes that
are saved before they are published.

**Network policy** (`HostNames`, `DomainRules`, `HostForms`, `PolicyAddresses`, `PolicyRules`,
`PolicyDialer`). Host normalisation, the compiled suffix index, inclusion of domain patterns, CIDRs in IPv4, IPv6
and mapped notation, the verdicts, and a dialer with its offline explanation.

**Admission ledger** (`AdmissionLedger`). Envelopes and their records, with a crash possible between any two
durable steps. A ghost trail holds every durable state there has been, and the invariant is about all of it.

**Node engine** (`NetworkState`, `NetworkTables`, `NetworkAllocator`, `Quarantine`, `SeekTail`). Subnets, addresses
and interfaces; the quarantine flag over every later write and restart; the backward search for the last lines.

**Command line and installer** (`ShellQuote`, `SetupTransaction`). Quoting read back by POSIX token recognition
and quote removal (sections 2.2, 2.3 and 2.6.7 of POSIX.1-2017 XCU), and the installer's file transaction.

`AdmissionLedger.Guard`, `NetworkAllocator.Node` and `Quarantine.Backend` each keep a ghost trail of durable states
and can be restarted from any state of another one's trail, so what is proved of trails holds over crashes and
restarts too.

`Common` holds an option type, the three ways a durable step can end (done, failed without effect, failed
after its effect) and a fact about maps; `Hex` is hexadecimal text.

## Where the code does less than it may seem to promise

- A crash after an envelope is created and before its limits are complete leaves an envelope that reservation,
  verification, retirement and release all refuse until the host restarts, although the record is written first so
  that an interrupted creation does not lose capacity. Orphan recovery ends in the same release.
  `AdmissionLedger.HalfMadeEnvelope` is such a node, and `AdmissionLedger.StopThenRelease` says exactly from which
  states a release gets through.
- A lease can be handed out while a worker stands under the request's name and its allocation is reserved, and a
  launch can become complete with a worker that is gone: the engine and the inventory are asked before the record
  is written. `LaunchMoments.MintingConditions` and `LaunchMoments.CompletingStep` say exactly when what was seen
  still holds; `LaunchMoments.LeaseBesideLateWorker` and `LaunchMoments.CompleteWithoutWorker` give the runs.
- A managed worker lists at most one network, but it can stand in the endpoint tables of two
  (`NetworkAllocator.WorkerInTwoTables`): exactly when the record write after a table write was lost and a later
  connect put it into another table (`NetworkTables.TwoTablesAfterLostWrite`, `NetworkTables.LostWriteThenConnect`).
  A disconnect that finds the table already without the worker reports success and leaves the worker's own list
  alone (`NetworkAllocator.Node.Disconnect`).
- An issue that was checked before the stored credentials were replaced can still land after it
  (`CredentialRuns.IssueAfterReplacement`).
- The installer keeps nine permission bits. A failed install or a rollback restores the file system exactly
  when no backed-up file had a higher mode bit (`SetupTransaction.PutBackIsIdentity`,
  `SetupTransaction.HighModeIsLost`).
- The comparison of a snapshot with itself passes exactly when no root is recorded as missing
  (`SchemaDrift.AgreesWithItself`).
- An execution that was admitted before a quarantine can begin after it, as long as its task still runs
  (`Quarantine.QuarantineIsForGood`, `Quarantine.Backend.BeginExec`).
- A replacement in the token tables needs its value to be free or its own; issue relies on random values for
  this, restore checks it (`TokenTables.ReplaceKeepsIndexes`).

## Main results

1. `SchemaDrift.SchemaChanges`, `SchemaPaths.AgreeIffNoPathDiffers`: a finished comparison is silent exactly for
   bisimilar schemas. `SchemaEdits` says what each elementary change does, and `SchemaProse.CleanHidesOnlyProse`
   what cleaning hides.
2. `HookLimit.MemberFound`, `HookLimit.PrintedLimitReadBack`: the scanner finds exactly the wanted member, and the
   printed limit comes back; `HookRefusals.CutStateIsRefused`: nothing else is taken for a limit.
3. `LaunchRuns.LeaseGoesToOneClaimer`, `LaunchRuns.RetiredLeaseIsRefused`, `LaunchMoments.MintingConditions`,
   `LaunchMoments.CompleteNamesHeldWorker`, `LaunchOrigins.AbortKeepsWorker`, `LaunchOutcomes.ClaimGoesThrough`: what a
   lease, a complete launch and an aborted one stand for, in every run, and when a claim goes through.
4. `CredentialRuns.RunStaysGood`, `CredentialRuns.LostSaveEndsService`, `CredentialRuns.IssueAfterReplacement`,
   `CredentialRuns.ServedUntilEnded`: tables, service, leases, revocations and stored generations under every
   interleaving.
5. `DomainRules.WithinIsInclusion`, `PolicyRules.DestinationByRules`, `PolicyRules.AddressByRules`,
   `PolicyAddresses.RefusedIsAmbiguous`, `PolicyAddresses.PrivateIsListed`,
   `HostNames.ParsedDestinationIsFixed`, `PolicyDialer.ExplainThenDial`: the compiled policy means what is written,
   and the explanation foretells the dialer.
6. `AdmissionLedger.Guard.Serve`, `AdmissionLedger.RecordFixedWhileItLives`, `AdmissionLedger.StopThenRelease`: the
   ledger at every crash point and after every restart.
7. `NetworkState.AddressesAreDistinct`, `NetworkTables.TwoTablesAfterLostWrite`, `Quarantine.QuarantineIsForGood`: the
   node engine over every run.
8. `ShellQuote.JoinReadsBack`, `SeekTail.TailIsLastLines`, `SetupTransaction.Host.Apply`,
   `SetupTransaction.ApplyThenRollback`: the tools.

## Model

| member | source | states |
|---|---|---|
| `SchemaDrift.SchemaChanges` | scripts/upstream-contracts.py:482-590 | a comparison that finishes reports nothing exactly when the two bundles agree exactly (same roots, every root pair bisimilar under each side's own reference table), only informational findings exactly when they agree leniently, and nothing breaking exactly when they agree unbroken; agreeing bundles never draw an unwanted finding, even when it does not finish; it finishes on identical bundles and on reference-free ones within the bound |
| `SchemaDrift.CompareSource` | scripts/upstream-contracts.py:614-661 | one schema source passes exactly when its comparison finished and the bundles agree leniently, is an error exactly when it did not finish, and is held otherwise; an advisory one has no breaking findings; identical snapshots pass unless they record a missing operation |
| `SchemaDrift.AgreesWithItself` | scripts/upstream-contracts.py:581-590 | a bundle agrees with itself exactly when no root is recorded as missing, and is never broken by itself |
| `SchemaDrift.Comparator.ProcessedIsSimulation` | scripts/upstream-contracts.py:499-503 | when every processed pair is justified, the visited set is a bisimulation: skipping a pair seen before hid no difference |
| `SchemaDrift.Comparator.JustifiedReachesLeft` | scripts/upstream-contracts.py:499-511 | unfolding the left side of a justified pair any number of times reaches heads that match |
| `SchemaDrift.Comparator.JustifiedReachesRight` | scripts/upstream-contracts.py:499-511 | the same from the right side |
| `SchemaDrift.Comparator.Walk` | scripts/upstream-contracts.py:491-495 | one call of the walk: sound (no unwanted finding means the pair is justified by the processed pairs) and complete (agreeing schemas draw none), and it finishes on schemas without references within the bound |
| `SchemaDrift.Comparator.WalkReference` | scripts/upstream-contracts.py:494-512 | the reference step with its visited set and `allOf` for siblings, sound and complete |
| `SchemaDrift.Comparator.WalkHeads` | scripts/upstream-contracts.py:513-579 | the step on schemas that are not references, sound and complete |
| `SchemaDrift.Comparator.WalkKeys` | scripts/upstream-contracts.py:519-520 | all keys of both objects are compared, in any order |
| `SchemaDrift.Comparator.WalkKey` | scripts/upstream-contracts.py:521-559 | one key, present on one side or on both |
| `SchemaDrift.Comparator.WalkMember` | scripts/upstream-contracts.py:530-573 | a member on both sides, by its keyword and role |
| `SchemaDrift.Comparator.WalkPlainMember` | scripts/upstream-contracts.py:560-573 | the keywords compared by value, by property map or as schemas |
| `SchemaDrift.Comparator.CompareRequired` | scripts/upstream-contracts.py:530-536 | `required` lists draw no unwanted finding exactly when their element sets agree in the direction of the role |
| `SchemaDrift.SortableIsComparable` | scripts/upstream-contracts.py:536 | required elements can be sorted for the report if and only if any two of them can be compared |
| `SchemaDrift.Comparator.CompareEnum` | scripts/upstream-contracts.py:540-546 | the same for `enum` |
| `SchemaDrift.Comparator.WalkProperties` | scripts/upstream-contracts.py:562-571 | property maps: additions, removals and common properties |
| `SchemaDrift.Comparator.WalkProperty` | scripts/upstream-contracts.py:563-571 | one property name |
| `SchemaDrift.Comparator.WalkItems` | scripts/upstream-contracts.py:574-576 | equal lists are walked item by item |
| `SchemaPaths.AgreeIffNoPathDiffers` | scripts/upstream-contracts.py:491-579 | agreement means the same as: along no finite path of unfolding and stepping down do the two sides look different (bisimilarity characterised without relations) |
| `SchemaMeaning.SameAgrees` | scripts/upstream-contracts.py:492-493 | skipping equal schemas is sound when the tables are equal or the schema uses none |
| `SchemaDrift.CompareAt` | scripts/upstream-contracts.py:614-661 | the same for each of the three questions: the findings answer it exactly as the meaning of the bundles does |
| `SchemaDrift.DowngradeSoftens` | scripts/upstream-contracts.py:650-653 | downgrading an advisory source takes its breaking findings away and changes nothing else |
| `SchemaDrift.Comparator.WalkRoot` | scripts/upstream-contracts.py:581-590 | one root: removed, added, missing on both sides, or compared in its role |
| `SchemaEdits.OneMemberEdited` | scripts/upstream-contracts.py:519-529 | when one member of a schema changes, agreement depends on that member alone |
| `SchemaEdits.RequiredEdited` | scripts/upstream-contracts.py:530-536 | `required` of a request may shrink and of a response grow, and exact agreement allows neither |
| `SchemaEdits.EnumEdited` | scripts/upstream-contracts.py:540-546 | `enum` of a request may grow and of a response shrink |
| `SchemaEdits.RequiredAppears` | scripts/upstream-contracts.py:547-559 | a nonempty `required` may go from a request and come to a response |
| `SchemaEdits.FlagEdited` | scripts/upstream-contracts.py:537-539 | a body that becomes required breaks a request; every other change of the flag is to be reviewed |
| `SchemaEdits.KeywordAppears` | scripts/upstream-contracts.py:547-559 | `deprecated` may come and go; any other keyword but `required` is to be reviewed when it does |
| `SchemaEdits.TypeEdited` | scripts/upstream-contracts.py:560-561 | a changed `type` or `const` breaks the contract in every role |
| `SchemaEdits.PropertyAdded` | scripts/upstream-contracts.py:562-571 | a property may be added and not taken away |
| `SchemaEdits.NestedEdited` | scripts/upstream-contracts.py:521-527 | a schema below another keyword is compared in the role that the keyword gives it |
| `SchemaEdits.RolesFollowKeywords` | scripts/upstream-contracts.py:523-527 | bodies and parameters are requests, responses are responses, security contracts are compared whole, the rest has the role around it |
| `SchemaEdits.ValueEdited` | scripts/upstream-contracts.py:513-518 | values that are not both objects are the same or to be reviewed; a security contract is the same or to be reviewed as a whole |
| `SchemaEdits.ReferenceMeansTarget` | scripts/upstream-contracts.py:495-511 | a reference means its target, with what stands beside it as a second schema of an `allOf` |
| `SchemaEdits.OneRoot` | scripts/upstream-contracts.py:590 | roots are requests, except for the security schemes |
| `SchemaEdits.RootAppears` | scripts/upstream-contracts.py:581-588 | a root may come and not go; one missing in both bundles is to be reviewed |
| `SchemaProse.CleanHidesOnlyProse` | scripts/upstream-contracts.py:63-70 | two values are cleaned to the same one if and only if no finite path through names and members that are not prose leads to a place where they differ |
| `SchemaProse.ProseIsHidden` | scripts/upstream-contracts.py:63-70 | outside a map from names, a change is hidden if and only if its key is one of the nine words for prose |
| `SchemaProse.NamesAreSeen` | scripts/upstream-contracts.py:63-70 | an entry that is named like prose is seen exactly in the nine maps from names |
| `SchemaProse.TypeIsSeen` | scripts/upstream-contracts.py:63-70 | a changed type does |
| `SchemaProse.PropertyIsSeen` | scripts/upstream-contracts.py:63-70 | properties called description are seen in every schema |
| `SchemaBundle.CleanTwice` | scripts/upstream-contracts.py:63-70 | cleaning twice is cleaning once, also where names are kept |
| `SchemaBundle.Clean` | scripts/upstream-contracts.py:63-70 | cleaning never introduces a reference |
| `SchemaBundle.Build` | scripts/upstream-contracts.py:73-90 | a built bundle refers only to schemas it contains, each the cleaned schema its name points at; a bundle whose references all resolve is built, cyclic or not |
| `SchemaBundle.Collector.Visit` | scripts/upstream-contracts.py:76-86 | visiting a value closes it under references and terminates because no name is followed twice |
| `SchemaBundle.Collector.VisitReference` | scripts/upstream-contracts.py:78-81 | a name already in the table is not followed again |
| `SchemaBundle.Collector.VisitMembers` | scripts/upstream-contracts.py:82-83 | every member of an object is visited |
| `SchemaBundle.Collector.VisitItems` | scripts/upstream-contracts.py:84-86 | every item of a list is visited |
| `HookScanner.FindMember` | deploy/kata/pids_hook.c:19-49 | the pointer loop computes the scan function, with its errors for control characters, truncation, duplicates and nesting |
| `HookScanner.SkipString` | deploy/kata/pids_hook.c:26-32 | the string loop stops at the closing quote |
| `HookScanner.SkipSpaces` | deploy/kata/pids_hook.c:34-38 | the white space loop stops at the first other byte |
| `HookScanner.RequestedLimit` | deploy/kata/pids_hook.c:50-64 | the limit lookup computes its function, and an accepted limit is the default or lies in 64..4096 |
| `JsonText.ValueScanned` | deploy/kata/pids_hook.c:24-46 | any value nested within the limit is passed over whole, whatever strings and members it contains |
| `JsonText.StringClosed` | deploy/kata/pids_hook.c:26-32 | a string ends at its own closing quote, escapes included |
| `HookLimit.MemberFound` | deploy/kata/pids_hook.c:19-49 | in any well-formed object, with any white space and any trailing text, the scanner meets exactly the top-level members with the wanted key |
| `HookLimit.LookupMissing` | deploy/kata/pids_hook.c:43-49 | no such member: nothing is found |
| `HookLimit.LookupOnly` | deploy/kata/pids_hook.c:35-40 | one such member: the exact offset of its value |
| `HookLimit.LookupDuplicate` | deploy/kata/pids_hook.c:35-36 | two such members: refused as a duplicate |
| `HookLimit.LimitRead` | deploy/kata/pids_hook.c:55-63 | a limit is accepted exactly when it is a string of one to four digits in range, and then has its decimal value |
| `HookLimit.LimitFound` | deploy/kata/pids_hook.c:50-64 | the whole lookup on a well-formed state: the value of the one annotation, or a refusal |
| `HookLimit.LimitDefaults` | deploy/kata/pids_hook.c:51-54 | without the annotation the default applies |
| `HookLimit.PrintedLimitReadBack` | internal/engine/backend.go:447-452 | every limit in 64..4096 that the engine prints into the annotation is read back by the hook as the same number |
| `HookRefusals.StringRead` | deploy/kata/pids_hook.c:26-32 | a string is read to exactly the quote after well-formed contents |
| `HookRefusals.StringRefused` | deploy/kata/pids_hook.c:28-32 | a control character before its end is refused as such, and a string without an end as cut off |
| `HookRefusals.TooDeep` | deploy/kata/pids_hook.c:43-44 | more containers than the limit allows are refused |
| `HookRefusals.CutObjectIsRefused` | deploy/kata/pids_hook.c:24-48 | an object that breaks off anywhere is refused, for every object and every place |
| `HookRefusals.CutStateIsRefused` | deploy/kata/pids_hook.c:50-64 | a state that breaks off never gives a limit, not even the default |
| `HookRefusals.AnnotationsTwice` | deploy/kata/pids_hook.c:36 | repeated annotations are refused |
| `HookRefusals.AnnotationsNotAnObject` | deploy/kata/pids_hook.c:20 | annotations that are no object are refused |
| `HookRefusals.LimitTwice` | deploy/kata/pids_hook.c:36 | a repeated limit is refused |
| `HookRefusals.LimitNotAString` | deploy/kata/pids_hook.c:55 | a limit that is no string is refused |
| `Decimal.PrintedValue` | internal/engine/backend.go:451 | printing a number gives digits that have its value, and at least one |
| `LaunchLease.Guard.WriteLaunch` | internal/kataguard/launch.go:98-126 | the record is replaced or kept, and the error does not tell which |
| `LaunchLease.Guard.ClaimLaunch` | internal/kataguard/launch.go:128-186 | the new record and reply of a claim in every branch, as its stages one after the other, each with an answer of its own moment |
| `LaunchLease.Guard.Reconcile` | internal/kataguard/launch.go:151-185 | adopting the worker, waiting for its reservation or handing out the next lease |
| `LaunchLease.Guard.FinishLaunch` | internal/kataguard/launch.go:188-205 | finishing needs the current lease and the engine's own worker |
| `LaunchLease.Guard.AbortLaunch` | internal/kataguard/launch.go:207-222 | aborting needs the current lease; a known worker leaves the launch waiting for cleanup |
| `LaunchLease.DigestsAreEncodings` | internal/kataguard/launch.go:20 | a request digest is the text of 32 bytes |
| `LaunchLease.NamesAgree` | internal/kataguard/launch.go:42 | two requests share a worker name exactly when the first half of their digests is the same |
| `LaunchOrigins.Origin` | internal/kataguard/launch.go:128-222 | what is about to be written, looked up or drawn belongs to one operation, by its key, fingerprint, lease and worker, and the records are still those on which it began |
| `LaunchOrigins.LeaseForItsClaim` | internal/kataguard/launch.go:128-186 | nobody receives a lease but the claim, with this key and fingerprint, that asked for it |
| `LaunchOrigins.ClosedIsAnswered` | internal/kataguard/launch.go:143-145 | a closed launch stays as it is, every later claim of it is told so, and nobody gets a lease of it |
| `LaunchOrigins.WrittenByAbort` | internal/kataguard/launch.go:207-222 | a written abort leaves its launch failed, or waiting for the cleanup of exactly the worker it named |
| `LaunchOrigins.AbortKeepsWorker` | internal/kataguard/launch.go:215-219 | after a written abort that named a worker, the record is closed with that worker for the rest of the run and no later reply carries a lease of the request |
| `LaunchOutcomes.ClaimGoesThrough` | internal/kataguard/launch.go:128-186 | from every state, a claim that nothing disturbs gets its lease if and only if the launch is new, given up or expired with the same fingerprint, the engine has no worker under its name, and a known request has no reservation |
| `LaunchOutcomes.ClaimAdopts` | internal/kataguard/launch.go:155-161 | it adopts the worker under the name if and only if that is the request's own |
| `LaunchOutcomes.FinishCompletes` | internal/kataguard/launch.go:188-205 | a finish that nothing disturbs completes the launch if and only if its lease is current and the engine holds the named worker for the request |
| `LaunchOutcomes.AbortGivesUp` | internal/kataguard/launch.go:207-222 | an abort that nothing disturbs gives the launch up if and only if its lease is current; a named worker is kept for cleaning up |
| `LaunchOutcomes.RepliesAreTrue` | internal/kataguard/launch.go:98-222 | a reply without an error shows the durable record, perhaps without its lease; an error that is not about writing means that nothing changed |
| `LaunchRuns.StepAdvances` | internal/kataguard/launch.go:128-222 | every stage of an operation, and everything beside it, keeps the invariant: a record is pending exactly when it carries a lease that was handed out for it, and an operation under way works on the durable record |
| `LaunchRuns.RunKeepsInv` | internal/kataguard/launch.go:128-222 | the same over every run |
| `LaunchRuns.RunAdvances` | internal/kataguard/launch.go:128-186 | over every run closed launches stay as they are with their worker, fingerprints never change, and attempts only rise when a new lease comes |
| `LaunchRuns.LeaseIsNew` | internal/kataguard/launch.go:176-185 | only the last stage of a claim hands out a lease, always one never handed out before, and only after the last one was given back or ran its full period |
| `LaunchRuns.LeaseGoesToOneClaimer` | internal/kataguard/launch.go:148-150 | no two replies of one run carry the same lease, lost or not |
| `LaunchRuns.LeavingIsRetiring` | internal/kataguard/launch.go:188-222 | a lease that stops being current is retired at once |
| `LaunchRuns.RunKeepsRetired` | internal/kataguard/launch.go:176-185 | a retired lease is never current again |
| `LaunchRuns.RetiredLeaseIsRefused` | internal/kataguard/launch.go:193-195 | whoever holds a retired lease can neither finish nor abort, after any further run |
| `LaunchRuns.RunningLaunchIsExclusive` | internal/kataguard/launch.go:146-150 | while a lease runs a claim changes nothing and hands out nothing |
| `LaunchMoments.MintingConditions` | internal/kataguard/launch.go:151-185 | a lease is handed out only to a claim that saw no worker under the request name and, except on a first claim, no reservation, each at its own moment of the same operation; at the moment of writing there is a worker, or a reservation, exactly when one came after that look and was not taken away |
| `LaunchMoments.ClaimSaw` | internal/kataguard/launch.go:151-172 | a claim on its way to a lease has seen no worker and no reservation |
| `LaunchMoments.LeaseBesideLateWorker` | internal/kataguard/launch.go:151-185 | from every claim about to draw a lease, a worker and a reservation that come now do not stop it |
| `LaunchMoments.SecondClaimDraws` | internal/kataguard/launch.go:151-185 | such a claim of a request whose first lease ran out can be reached from the start |
| `LaunchMoments.CompletingStep` | internal/kataguard/launch.go:188-205 | a launch becomes complete only with a worker that the engine held for its key and fingerprint when it was asked; it still holds it at the moment of writing exactly when it was not removed in between |
| `LaunchMoments.CompleteWithoutWorker` | internal/kataguard/launch.go:196-204 | from every operation about to complete a launch, a worker that goes now does not stop it |
| `LaunchMoments.CompleteNamesHeldWorker` | internal/engine/backend.go:559-576 | in every run each complete launch names the one worker the engine held for its key and fingerprint at the look of the operation that completed it |
| `LaunchMoments.HeldUntilRemoved` | internal/engine/backend.go:317-325 | a worker stays the one under its name exactly until it is removed |
| `TokenTables.ReplaceKeepsIndexes` | internal/authproxy/tokens.go:222-227 | a replacement keeps the two tables alike exactly when no other worker holds the value |
| `TokenTables.RemoveKeepsInv` | internal/authproxy/tokens.go:228-236 | removing a name keeps both tables and the lease account consistent |
| `TokenTables.RemoveAllKeepsInv` | internal/authproxy/tokens.go:228-249 | whatever set of names leaves the tables has its leases cancelled |
| `TokenTables.CommitIssueKeepsInv` | internal/authproxy/tokens.go:63-70 | whatever was revoked between the checks and the lock, an issue ends consistently |
| `TokenTables.CommitRestoreKeepsInv` | internal/authproxy/restore.go:44-57 | a restore ends consistently, and never takes another worker's placeholder |
| `TokenTables.RevokeRunKeepsInv` | internal/authproxy/tokens.go:196-218 | revoking a run leaves no record of it |
| `TokenTables.RevokeCaseKeepsInv` | internal/authproxy/case_generation.go:43-50 | revoking the case empties both tables |
| `TokenTables.StopKeepsInv` | internal/authproxy/proxy.go:447-458 | stopping cancels every lease |
| `CredentialProxy.Proxy.RemoveTokenLocked` | internal/authproxy/tokens.go:228-236 | in place removal from both maps |
| `CredentialProxy.Proxy.ReplaceTokenLocked` | internal/authproxy/tokens.go:222-227 | in place replacement in both maps |
| `CredentialProxy.Proxy.RemoveNames` | internal/authproxy/tokens.go:206-217 | the loop that revocation, expiry and case revocation share |
| `CredentialProxy.Proxy.RevokeToken` | internal/authproxy/tokens.go:89-96 | one name |
| `CredentialProxy.Proxy.RevokeRun` | internal/authproxy/tokens.go:196-218 | refused, or the identity is revoked and all its records go |
| `CredentialProxy.Proxy.RevokeCaseTokens` | internal/authproxy/case_generation.go:43-50 | the case is revoked and no record stays |
| `CredentialProxy.Proxy.ExpireTokens` | internal/authproxy/tokens.go:238-249 | exactly the records past their time go |
| `CredentialProxy.Proxy.Stop` | internal/authproxy/proxy.go:447-458 | all leases are cancelled and the tables start afresh |
| `CredentialProxy.Proxy.NewTokenRecord` | internal/authproxy/tokens.go:27-33 | a record with a lease of its own |
| `CredentialProxy.Proxy.CommitIssue` | internal/authproxy/tokens.go:63-70 | the locked part of an issue succeeds exactly when neither case nor run was revoked |
| `CredentialProxy.Proxy.RestoreToken` | internal/authproxy/restore.go:33-57 | placeholder and lifetime checks, then the locked part |
| `CredentialProxy.Proxy.CommitRestored` | internal/authproxy/restore.go:44-57 | refused for a revoked case or run or for another worker's placeholder; otherwise replaced |
| `CredentialProxy.Proxy.CheckCaseGeneration` | internal/authproxy/case_generation.go:14-34 | accepted exactly when the stored generation is the kept one; a missing or different one revokes the case, an unreachable store does not |
| `CredentialProxy.Proxy.PersistOAuthState` | internal/authproxy/oauth_state.go:75-111 | a save that is not accepted revokes the case and keeps the old generation |
| `CredentialProxy.Proxy.RefreshAnthropicOAuthIfNeeded` | internal/authproxy/anthropic.go:70-166 | memory changes only after an accepted save, and only when a refresh was due and its answer acceptable |
| `CredentialProxy.Proxy.FindRefresher` | internal/authproxy/openai.go:28-50 | who may ask for an OpenAI refresh |
| `CredentialProxy.Proxy.HandleOAuthTokenRefresh` | internal/authproxy/openai.go:51-162 | the token is checked again under the lock; memory changes only after an accepted save |
| `TokenService.AcceptedIsNamed` | internal/authproxy/worker_auth.go:41-48 | a request is accepted exactly as the record that holds its token under its worker's name, in time and on a route of its provider |
| `TokenService.RevokingEndsOneName` | internal/authproxy/tokens.go:89-96 | revoking a name ends the service of that name alone |
| `TokenService.ExpiryIsUnseen` | internal/authproxy/tokens.go:178-185 | expiry is never noticed: who is served later is served as if nothing had been removed |
| `TokenService.ExpiredAreGone` | internal/authproxy/tokens.go:238-249 | exactly the records past their time are gone |
| `TokenService.RevokingEndsOneRun` | internal/authproxy/tokens.go:206-217 | revoking a run ends the service of that run alone |
| `TokenService.NobodyIsServed` | internal/authproxy/case_generation.go:43-50 | after a revocation of the case, or a stop, nobody is served |
| `TokenService.IssueServes` | internal/authproxy/tokens.go:63-70 | an issued token is accepted as long as it lasts, the former one of its worker is not, and nobody else is affected |
| `TokenService.RestoreServes` | internal/authproxy/restore.go:44-57 | the same for a restored token; a refused restore changes nothing |
| `TokenService.RestoreRefusedWhen` | internal/authproxy/restore.go:46-51 | a restore is refused for a revoked case or run and for the placeholder of another worker |
| `TokenService.RoutesAreApart` | internal/authproxy/worker_auth.go:57-68 | a worker of one provider never reaches a route of the other |
| `OAuthGenerations.CheckEndsCase` | internal/authproxy/case_generation.go:14-34 | a check takes the case out of service exactly when the stored generation is gone, newer or of another connection |
| `OAuthGenerations.RefreshIsDue` | internal/authproxy/anthropic.go:83-100 | a refresh is due from one minute before a known end on; a credential that cannot be refreshed is of no use from its end on |
| `OAuthGenerations.NextGenerationLasts` | internal/authproxy/anthropic.go:139-153 | the next generation needs no refresh before the last minute of its lifetime, and what the answer leaves out is kept |
| `OAuthGenerations.NextOpenAIKeeps` | internal/authproxy/openai.go:133-152 | the same for the other provider: nothing is lost but what the answer replaces |
| `OAuthGenerations.ServedMayRefresh` | internal/authproxy/openai.go:43-50 | whoever is served on an OpenAI route may ask for a refresh |
| `CredentialProxy.PlaceholdersAreIssued` | internal/authproxy/restore.go:33-38 | a placeholder is accepted exactly when, up to the case of its digits, it can be issued |
| `CredentialRuns.ServedUntilEnded` | internal/authproxy/worker_auth.go:41-48 | over every run, an accepted token stays accepted under the same record exactly when nothing in between revokes its name, run or case, replaces it, stops the proxy or comes after its end |
| `CredentialRuns.ServedStep` | internal/authproxy/tokens.go:63-249 | one step ends the service of a record exactly when it is one of those |
| `CredentialRuns.RunStaysGood` | internal/authproxy/tokens.go:43-75 | under every interleaving of issue, restore, revocation, expiry, stop, generation checks and refreshes the two tables hold the same live records, and no revocation, cancellation or loss is taken back |
| `CredentialRuns.RevokedRunStaysOut` | internal/authproxy/worker_auth.go:13-55 | a revoked run never authenticates again |
| `CredentialRuns.RevokedCaseServesNobody` | internal/authproxy/case_generation.go:43-50 | once the case is revoked no token exists, authenticates or can be made |
| `CredentialRuns.LostSaveEndsService` | internal/authproxy/oauth_state.go:97-108 | one save that did not come back good ends the service for good |
| `CredentialRuns.QuietMemoryIsDurable` | internal/authproxy/oauth_state.go:108-111 | between refreshes both providers serve exactly the generation stored under the kept version |
| `CredentialRuns.StaysBehind` | internal/authproxy/anthropic.go:151-163 | memory never holds a credential that was not durable first |
| `CredentialRuns.DepartedRecordsStayCancelled` | internal/authproxy/tokens.go:228-236 | a record that left the tables is cancelled and stays so |
| `CredentialRuns.SupersededUntilChecked` | internal/authproxy/case_generation.go:14-34 | after the stored generation is replaced or deleted, the case is revoked from the first check that reaches the store, or the first refresh, and by nothing else |
| `CredentialRuns.NextCheckRevokesForGood` | internal/authproxy/case_generation.go:27-33 | after a replacement or deletion the next check that reaches the store ends the service for good |
| `CredentialRuns.IssueAfterReplacement` | internal/authproxy/tokens.go:47-70 | an issue checked before a replacement still lands after it exactly when no other check reached the store, no refresh was tried and its run was not revoked in between |
| `HostNames.NormalizeHost` | internal/networkpolicy/policy.go:188-214 | the label loop computes the normal form |
| `HostNames.CheckLabels` | internal/networkpolicy/policy.go:199-212 | the loop accepts exactly names made of valid labels |
| `HostNames.NormalizedIsFixed` | internal/networkpolicy/policy.go:188-214 | what normalising returns is left alone by normalising |
| `HostNames.TextSplits` | internal/networkpolicy/policy.go:48 | a destination's own text splits into its host and port again |
| `HostNames.ParsedDestinationIsFixed` | internal/networkpolicy/policy.go:24-48 | a parsed destination is a fixed point and parses back from its own text |
| `HostNames.ExplicitPortWins` | internal/networkpolicy/policy.go:24-36 | the default port does not matter when the authority names one |
| `HostForms.LabelSyntax` | internal/networkpolicy/policy.go:202-211 | labels are letters and digits with hyphens between, at most 63 of them |
| `HostForms.NamesInAnyCase` | internal/networkpolicy/policy.go:195-198 | names are read without regard to case, with or without a dot at the end |
| `HostForms.IPv4IsDotted` | internal/networkpolicy/policy.go:190-194 | an IPv4 address is four numbers up to 255 in decimal with dots between |
| `HostForms.SplitIsJoined` | internal/networkpolicy/policy.go:24-36 | splitting an authority undoes joining host and port, and nothing else has parts |
| `HostForms.DefaultPortFills` | internal/networkpolicy/policy.go:26-36 | an authority without a port is the same with the default port |
| `HostForms.PatternsAreWritten` | internal/networkpolicy/policy.go:255-263 | how patterns are written: bare, after a dot, after an equals sign, with blanks around |
| `HostForms.CoversIsLabels` | internal/networkpolicy/policy.go:216-230 | a pattern covers its own host and, unless exact or an address, the hosts whose labels end with its labels |
| `DomainRules.IndexDomains` | internal/networkpolicy/policy.go:220-230 | the loop builds the exact and suffix sets |
| `DomainRules.Matches` | internal/networkpolicy/policy.go:264-278 | the loop over labels finds exactly an exact entry or a listed suffix |
| `DomainRules.IndexIsScan` | internal/networkpolicy/policy.go:216-278 | looking a host up in the index equals trying every pattern |
| `DomainRules.WithinIsInclusion` | internal/networkpolicy/policy.go:232-253 | child lies within parent if and only if every host an index of child matches is matched by an index of parent |
| `DomainRules.DomainWithinIsInclusion` | internal/networkpolicy/policy.go:232-263 | the same for the texts of the two patterns |
| `DomainRules.Witness` | internal/networkpolicy/policy.go:249-252 | when the answer is no there is a host that tells the two apart |
| `PolicyAddresses.UnmappingKeepsMembers` | internal/networkpolicy/policy.go:115-121 | a mapped IPv4 prefix of at least 96 bits contains the same addresses before and after unmapping |
| `PolicyAddresses.RefusedIsAmbiguous` | internal/networkpolicy/policy.go:115-118 | the policy refuses exactly the mapped prefixes that no IPv4 prefix can stand for |
| `PolicyAddresses.CompiledPrefixIsRule` | internal/networkpolicy/policy.go:102-123 | the compiled prefix contains an unmapped address exactly when the written rule means it |
| `PolicyAddresses.Masked` | internal/networkpolicy/policy.go:121 | masking does not change what a prefix contains |
| `PolicyAddresses.ContainsIsRange` | internal/networkpolicy/policy.go:280-287 | a prefix contains the addresses from its first one on, as many as its host bits allow |
| `PolicyAddresses.MappedBack` | internal/networkpolicy/policy.go:169 | mapping and unmapping undo each other, and what is mapped is ::ffff:0:0/96 |
| `PolicyAddresses.PrivateIsListed` | internal/networkpolicy/policy.go:289-295 | an address is private if and only if it lies in one of the listed prefixes, written in octets or groups |
| `PolicyRules.PrivateIsBlocked` | internal/networkpolicy/policy.go:176-178 | a policy that blocks private addresses refuses every address of those prefixes, plain or mapped |
| `PolicyRules.Compile` | internal/networkpolicy/policy.go:83-137 | rules compile to their representation; otherwise the error names a bad domain, else a bad CIDR, else a bad port |
| `PolicyRules.CompileDomains` | internal/networkpolicy/policy.go:89-98 | every domain read, or one that cannot be |
| `PolicyRules.CompileCidrs` | internal/networkpolicy/policy.go:106-122 | every CIDR read, or one that cannot be |
| `PolicyRules.CompilePorts` | internal/networkpolicy/policy.go:128-134 | every port read, or one out of range |
| `PolicyRules.CheckDestination` | internal/networkpolicy/policy.go:139-163 | the checks in order compute the verdict |
| `PolicyRules.CheckAddress` | internal/networkpolicy/policy.go:165-186 | the checks in order compute the verdict; with private addresses blocked none of the listed prefixes gets through |
| `PolicyRules.MatchesCidr` | internal/networkpolicy/policy.go:280-287 | the loop finds a containing prefix exactly when there is one |
| `PolicyRules.NamedIsLookup` | internal/networkpolicy/policy.go:147-158 | the index answers as the written list of domains |
| `PolicyRules.ListedIsContained` | internal/networkpolicy/policy.go:179-184 | the compiled prefixes answer as the written list of CIDRs |
| `PolicyRules.RulePortsAreParsed` | internal/networkpolicy/policy.go:124-134 | rules may name exactly the ports that an authority can have |
| `PolicyRules.DestinationByRules` | internal/networkpolicy/policy.go:80-163 | a destination is allowed exactly when the written rules permit it (denials win, nonempty allowlists must all agree, default-deny needs a domain or CIDR grant), and otherwise the first broken rule is named |
| `PolicyRules.AddressByRules` | internal/networkpolicy/policy.go:165-186 | an address in either notation is allowed exactly when the written rules permit it, and otherwise the first broken rule is named |
| `PolicyRules.ParsedIsNeverInvalid` | internal/networkpolicy/policy.go:143-146 | a parsed destination is never refused as an invalid authority |
| `PolicyRules.CheckAllDestinations` | internal/networkpolicy/policy.go:297-310 | combined policies allow exactly what every member allows; a refusal is the first member's |
| `PolicyRules.CheckAllAddresses` | internal/networkpolicy/policy.go:311-320 | the same for addresses |
| `PolicyDialer.DialDestination` | internal/networkpolicy/dialer.go:33-69 | a name is resolved at most once, after its destination was allowed, and an address never; the addresses checked are those up to the first refused one |
| `PolicyDialer.Dial` | internal/networkpolicy/dialer.go:23-69 | dialing stops with the stated reason or reaches its connect loop; it never connects before every address of the answer was checked and allowed, only to an address of the answer, and ends at the first success |
| `PolicyDialer.CheckAnswer` | internal/networkpolicy/dialer.go:50-54 | every address is checked in order up to the first refusal |
| `PolicyDialer.ConnectFirst` | internal/networkpolicy/dialer.go:59-68 | checked addresses are tried in order until one connects; otherwise all were tried |
| `PolicyDialer.Explain` | internal/networkpolicy/explain.go:44-93 | the explanation of compiled rules, with the number of addresses checked |
| `PolicyDialer.ExplainForetellsDial` | internal/networkpolicy/explain.go:44-93 | with a named port and the same answer, explaining allows exactly what dialing would connect to and otherwise gives its denial code; without resolution it never refuses that, nor claims completeness |
| `PolicyDialer.ExplainThenDial` | internal/networkpolicy/explain.go:44-93 | the same about what the two methods return on one set of compiled rules, with as many addresses checked |
| `AdmissionLedger.LimitsEnforceProfile` | internal/kataguard/host_linux.go:204-206 | an envelope with its limits holds the worker to the numbers of its profile, in decimal, and to nothing else |
| `AdmissionLedger.EnvelopeTellsProfile` | internal/kataguard/host_linux.go:207-228 | two profiles that differ never share an envelope |
| `AdmissionLedger.IdsAreEncodings` | internal/kataguard/host_linux.go:195-196 | allocations are named by 16 bytes, workers by 32 |
| `AdmissionLedger.Guard.Track` | internal/kataguard/ledger_linux.go:150-196 | the first write creates the record, later ones keep its profile and bind a worker once |
| `AdmissionLedger.Guard.Reserve` | internal/kataguard/host_linux.go:230-298 | success means an envelope that enforces the profile, a new one nothing else, with its record; refusals by capacity, profile or incomplete limits change nothing; it succeeds when the node admits it and nothing fails |
| `AdmissionLedger.Guard.Create` | internal/kataguard/host_linux.go:262-298 | the record comes before the envelope at every crash point |
| `AdmissionLedger.Guard.Furnish` | internal/kataguard/host_linux.go:283-297 | the limits are complete or the envelope is taken away again |
| `AdmissionLedger.Guard.WriteLimits` | internal/kataguard/host_linux.go:283-288 | the limits written in any order |
| `AdmissionLedger.Guard.Retire` | internal/kataguard/retire_linux.go:24-72 | only a supervisor group may be added, and the envelope can still be walked |
| `AdmissionLedger.Guard.Verify` | internal/kataguard/host_linux.go:322-341 | success binds exactly this worker to an existing record; an envelope bound to another worker is left alone |
| `AdmissionLedger.Guard.Release` | internal/kataguard/host_linux.go:445-500 | never takes an envelope that still held a process, nor one bound to another worker; success means record and envelope are gone; without fault or process it succeeds exactly when the allocation is releasable |
| `AdmissionLedger.Guard.Dismantle` | internal/kataguard/host_linux.go:486-492 | groups go deepest first, the record last |
| `AdmissionLedger.Guard.Serve` | internal/kataguard/host_linux.go:230-298 | over any sequence of requests every durable state on the way has a record for each envelope and at most the admitted number; an envelope left without its limits by a crash keeps its place |
| `AdmissionLedger.StopThenRelease` | internal/kataguard/host_linux.go:445-500 | from every state in which a guard can stop: a release after the restart that meets no fault succeeds if and only if the allocation is valid and readable, not bound to another worker, and its envelope has all its limits and only known groups |
| `AdmissionLedger.HalfMadeEnvelope` | internal/kataguard/host_linux.go:280-288 | a concrete node whose only place is taken by an envelope that stopped before its first limit |
| `AdmissionLedger.Guard.Reboot` | internal/kataguard/host_linux.go:199-203 | control groups do not survive the host, so its restart frees the place |
| `AdmissionLedger.Guard.AbortCreate` | internal/kataguard/abort_linux.go:15-41 | refused for another worker or an envelope that cannot be walked, and otherwise only through a failing step; changes neither ledger nor groups |
| `AdmissionLedger.RecordFixedWhileItLives` | internal/kataguard/ledger_linux.go:168-194 | over any stretch of any run in which a record lives, its profile never changes and a bound worker stays bound |
| `ShellQuote.JoinReadsBack` | cmd/run.go:1014-1024 | a shell splits the joined text into exactly the argument vector, empty words and quotes included |
| `ShellQuote.QuoteIsOneWord` | cmd/run.go:1026-1033 | a quoted word is read as exactly that word, whatever follows |
| `ShellQuote.JoinIsInjective` | cmd/run.go:1014-1024 | two argument vectors never share a text |
| `ShellQuote.OrdinaryWordsStay` | cmd/run.go:1026-1030 | ordinary options and paths are left as they are |
| `ShellQuote.BareWordsAreSafe` | cmd/run.go:1026-1030 | a word without quotes holds nothing that the shell would interpret |
| `SeekTail.Seek` | internal/engine/streams.go:481-514 | for every file, count and buffer size: the end for zero, the start when there are too few newlines, otherwise one past the n-th newline from the end |
| `SeekTail.TailIsLastLines` | internal/engine/streams.go:481-514 | what is read from that offset is exactly the last n lines |
| `SeekTail.LineCount` | internal/engine/streams.go:502-510 | a text has one line more than newlines before its last byte |
| `SeekTail.LinesCut` | internal/engine/streams.go:502-510 | cutting after a newline cuts the list of lines |
| `NetworkState.AddressesAreDistinct` | internal/engine/network.go:142-144 | no two endpoints on the node share an address |
| `NetworkState.OverlapIsShared` | internal/engine/network.go:214-219 | two prefixes overlap exactly when some address is in both |
| `NetworkState.CandidatesAre` | internal/engine/network.go:67-85 | a value stands for at most two networks, for two exactly when it is the id of one and the name of another |
| `NetworkState.SubnetHolds` | internal/engine/network.go:142-144 | a subnet holds the addresses of its own slot and of no other |
| `NetworkState.SubnetsAreApart` | internal/engine/network.go:143 | the subnets of different slots have nothing in common |
| `NetworkAllocator.BlockedIsShared` | internal/engine/network.go:176-219 | a slot is blocked exactly when one of its addresses lies in a prefix of the host or of a route that is not the default one |
| `NetworkAllocator.Node.WhoMayJoin` | internal/engine/network.go:272-280 | workers join one internal network; others join internal networks only as proxies |
| `NetworkAllocator.FreeSlot` | internal/engine/network.go:192-228 | the least slot that is not taken and overlaps no address or route of the host; none only when all are taken or blocked |
| `NetworkAllocator.Node.CreateNetwork` | internal/engine/network.go:145-242 | a network on a free slot; refused for space only when every slot is taken or blocked, as existing exactly when one network has the name or id, as ambiguous exactly when several do; anything else needs a failing step |
| `NetworkAllocator.Node.Find` | internal/engine/network.go:67-85 | a name or id stands for one network or none |
| `NetworkAllocator.Node.FreeHost` | internal/engine/network.go:284-296 | the least free host number in 2..254 |
| `NetworkAllocator.Node.FreeInterface` | internal/engine/network.go:298-306 | the least interface number not in use; the search ends |
| `NetworkAllocator.Node.Connect` | internal/engine/network.go:267-320 | refused exactly when the container may not join; otherwise a free address in table and record alike; tables and lists stay tied unless the table write took effect and the record write did not |
| `NetworkAllocator.Node.Disconnect` | internal/engine/network.go:359-383 | success means gone from table and record; when the table lacks the container nothing happens; tables and lists stay tied |
| `NetworkAllocator.Node.RemoveNetwork` | internal/engine/network.go:399-420 | only a network without endpoints goes; tables and lists stay tied |
| `NetworkAllocator.Node.RemoveContainer` | internal/engine/network.go:384-398 | success leaves the container in no table; tables and lists stay tied |
| `NetworkAllocator.Node.Join` | internal/engine/network.go:284-319 | allocation and both writes, table first |
| `NetworkTables.TwoTablesAfterLostWrite` | internal/engine/network.go:272-318 | in every run a managed worker stands in two tables only when the record write after one table write was lost and a later connect put it into the other |
| `NetworkTables.LostWriteThenConnect` | internal/engine/network.go:272-318 | and whenever that happens it stands in both |
| `NetworkTables.JoinFollows` | internal/engine/network.go:309-318 | each write of a new endpoint keeps the state good, and only the state between them leaves the worker untied |
| `NetworkTables.LeaveFollows` | internal/engine/network.go:370-382 | each write of leaving keeps the state good and the worker tied |
| `NetworkAllocator.OneTable` | internal/engine/network.go:272-316 | after attaching, a worker is in exactly one table if and only if no other network's table had it |
| `NetworkAllocator.JoinTwice` | internal/engine/network.go:313-318 | from any such state, a lost record write after the table write lets a managed worker join a second network's table |
| `NetworkAllocator.WorkerInTwoTables` | internal/engine/network.go:313-318 | a concrete node where that happens |
| `SetupTransaction.ManagedIsDistinct` | deploy/kata/setup.py:24-47 | no managed path is listed twice |
| `SetupTransaction.TargetsAreManaged` | deploy/kata/setup.py:460-464 | everything backed up is a managed path, so restoring never refuses it |
| `SetupTransaction.WritesAreActive` | deploy/kata/setup.py:527-537 | every path an install writes is an active managed path, written once |
| `SetupTransaction.WritesDeploy` | deploy/kata/setup.py:523-537 | each unit, program, completion and setting is written to its own path with its own mode |
| `SetupTransaction.PutBackIsIdentity` | deploy/kata/setup.py:348-368 | putting files back restores the file system exactly when no file had a mode bit above the permissions |
| `SetupTransaction.Host.Backup` | deploy/kata/setup.py:343-355 | every existing path is copied with its bytes and permissions, every missing one noted |
| `SetupTransaction.Host.Restore` | deploy/kata/setup.py:357-368 | every described path is put back and nothing else changes; it fails only through a failing step or a path that is not managed |
| `SetupTransaction.Host.Write` | deploy/kata/setup.py:523-544 | every step may fail; whatever happens only targets change, and success means all files, the journal and the record |
| `SetupTransaction.Host.WriteFiles` | deploy/kata/setup.py:527-537 | the release's files with their modes, the old command's files removed |
| `SetupTransaction.Host.Apply` | deploy/kata/setup.py:454-565 | an install finishes, or refuses before touching a managed file, or puts every managed file and the record back; it never takes over a file it did not put there; without such files or a failing step it finishes; it is stranded only when a step of putting back fails |
| `SetupTransaction.Host.Recover` | deploy/kata/setup.py:546-554 | the files first, the record second |
| `SetupTransaction.Host.Rollback` | deploy/kata/setup.py:477-502 | a rollback restores what the last install found, or puts back what it found itself |
| `SetupTransaction.ApplyThenRollback` | deploy/kata/setup.py:454-565 | installing and rolling back is the identity on files and record, exactly when no target had a mode bit above the permissions |
| `SetupTransaction.HighModeIsLost` | deploy/kata/setup.py:343-368 | a concrete update that is rolled back and loses a set-user-id bit |
| `Quarantine.QuarantineIsForGood` | internal/engine/quarantine.go:22-40 | over any stretch of any run in which a quarantined worker exists: the flag stays, a task once gone stays gone, and every execution was admitted before |
| `Quarantine.Backend.Quarantine` | internal/engine/quarantine.go:27-40 | success means the flag is durable and the task gone; the flag is durable whenever its write took effect, whatever the stop does and whatever begins in between |
| `Quarantine.Backend.Start` | internal/engine/backend.go:578-660 | a quarantined worker is refused and nothing changes |
| `Quarantine.Backend.FailedStart` | internal/engine/failed_start.go:14-27 | a failed start marks the record with its exit code unless the write is lost, and keeps the flag as it was |
| `Quarantine.Backend.Stop` | internal/engine/backend.go:693-782 | success means no task; the record keeps the flag it was loaded or set with |
| `Quarantine.Backend.CreateExec` | internal/engine/streams.go:73-105 | refused without change for a quarantined worker, a request that asks for more than a command, or too many sessions |
| `Quarantine.Backend.StartExec` | internal/engine/streams.go:267-322 | refused without change for a quarantined or missing worker, a missing task, an unreadable request or an execution that was started before |
| `Quarantine.Backend.BeginExec` | internal/engine/streams.go:375-383 | an admitted execution begins only in a task that still runs |
| `Quarantine.Backend.NoteExit` | internal/engine/recovery.go:92-129 | the exit of a task keeps the flag |
| `Quarantine.Backend.NoteActivity` | internal/engine/streams.go:412-419 | noting activity keeps the flag |
| `Quarantine.Backend.Remove` | internal/engine/backend.go:1039-1066 | only removal ends a quarantine, together with the worker |
| `Quarantine.Backend.Restart` | internal/engine/recovery.go:20-91 | a restart keeps every flag and serves only when no quarantined worker has a task |
| `TokenTables.ReplaceKeepsInv` | internal/authproxy/tokens.go:222-227 | a record on its way takes the place of the one under its name, and everything stays accounted for |
| `CredentialRuns.StartIsGood` | internal/authproxy/proxy.go:207-214 | a proxy that just loaded its generation is in a good state |
| `NetworkAllocator.Node.SaveNet` | internal/engine/network.go:86-118 | the network record is replaced or kept; success means replaced |
| `NetworkAllocator.Node.SaveBox` | internal/engine/backend.go:189-221 | the same for a container record |
| `SetupTransaction.Host.Atomic` | deploy/kata/setup.py:85-104 | a file is replaced whole or kept; success means replaced |
| `SetupTransaction.Host.Unlink` | deploy/kata/setup.py:534-535 | a file is gone or kept; a missing one is an error unless allowed |
| `Quarantine.Backend.Save` | internal/engine/backend.go:189-221 | the record is replaced or kept; success means replaced |
| `Quarantine.Backend.Reattach` | internal/engine/recovery.go:33-43 | a quarantined worker is stopped instead of reattached |

## Left out

- SchemaDrift.SchemaChanges: Python's recursion limit is a bound on nested calls, and running out of it is the error that the source reports; termination on cyclic one-sided references is not claimed, because it does not hold.
- SchemaDrift.Comparator.WalkKeys: keys are visited in any order; sorting affects the order of findings only. A finding carries its rule and its place, but only its level is specified; messages and the escaping of path segments are not modelled.
- Json: numbers are reals and booleans are not numbers, so `True == 1` in Python is not modelled; digests stand for the values they are taken of.
- SchemaBundle.Build: resolving a pointer in the document is a function given by the caller.
- The command line, Python type and captured file comparisons, validation of manifests and rendering of reports.
- JsonText.Print: the syntax is a little wider than RFC 8259 (any letters, digits and number signs make a scalar, a backslash escapes anything); `main` of the hook, which writes the control group file, is not part of this model.
- SchemaDrift.CompareSource: schema sources only; the other kinds of sources and the finding about versions are not modelled.
- LaunchLease.Guard.WriteLaunch: a record file is replaced as a whole; reading a damaged record and clocks that run backwards are not modelled.
- LaunchRuns.StepAdvances: the engine's answer and the inventory are each read at one moment, although the inventory lists several directories.
- TokenService.RoutesAreApart: the routes of a credential broker, which its configuration names, are not part of this model; the acceptance of a request is otherwise modelled after its token was read from the header.
- CredentialProxy.Proxy.RevokeRun: the checks on the request before the lock are one parameter.
- CredentialProxy.Proxy.NewTokenRecord: token values and leases are fresh; model policies, identity validation and HTTP are parameters or absent.
- CredentialProxy.Proxy.PersistOAuthState: only the branch with a credential store; the state file branch is not part of this model. The store is a compare-and-swap on its version.
- CredentialProxy.Proxy.HandleOAuthTokenRefresh: the provider's answer is a parameter; expiry texts and token types are not carried.
- HostNames.NormalizeHost: IPv6 text parsing is a canonicalising function given by the caller; IPv4 literals and labels are concrete.
- PolicyRules.CompileCidrs: reading the text of a prefix is a function given by the caller; its width and the absence of a zone are required of it.
- PolicyDialer.Dial: resolution and connection attempts are functions; policies do not change their mind between two calls of one dial. The end of a context shows as an aborted check.
- AdmissionLedger.Guard.Verify: attestation of processes and the engine's inspection are answers of the node; groups below an envelope are a flat list; moving processes is not modelled.
- AdmissionLedger.Guard.Retire: what moves the processes into the supervisor group is not modelled.
- AdmissionLedger.Guard.Serve: the admission lock makes operations follow each other; retirement and the abort of a failed start, which the engine also calls outside that lock, come between operations and not between the steps of one; a change of the worker limit between restarts is not modelled; foreign entries in the control group root do not count.
- ShellQuote.JoinReadsBack: word level only; assignments, reserved words and locale dependent blanks are out of scope.
- SeekTail.Seek: reads do not fail and the file does not change meanwhile.
- NetworkAllocator.Node.Connect: bridges, virtual links, firewall rules and namespaces succeed or fail as one step; link names made of shortened ids are not modelled, so two ids with the same first six digits are not either.
- NetworkAllocator.Node.CreateNetwork: ids are fresh; the checks on name, driver, forwarding and IPv6 are one parameter.
- SetupTransaction.Host.Apply: ownership and symlink checks, services, packages and staging are steps that may fail; an interrupt that is not an exception is not caught by the source and not modelled.
- SetupTransaction.Host.Rollback: the journal is one that an install wrote; what services do is not modelled.
- Quarantine.Backend.Create: the checks on name and configuration, the image and the snapshot are left out.
- Quarantine.Backend.Reattach: reattaching an ordinary worker is one step that may fail.
- Quarantine.Backend.StartExec: what the request body says beyond detaching is not carried.
- Quarantine.Backend.Stop: signals, ports and supervisors are steps that may fail; what a removed worker leaves behind is not modelled.
- TOML editing, the terminal interface, HTTP and WebSocket forwarding, template and image building: library plumbing or easy members.
