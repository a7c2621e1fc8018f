# AssetFlow: a verified model of its hard parts

This Dafny project models the parts of AssetFlow, an IT asset register with a NestJS API, a React client and a Go
endpoint agent, whose correctness is not visible in one function body: calendar arithmetic for warranties, workflows in
which many records compete for the same assets, an import that can be undone, an enrolment protocol with stale reads, a
fingerprint computed twice in two languages, text and byte codecs, and period statistics. Each service is a class whose
methods have the branches, the order of checks and the error cases of the source; each method is proved to commit exactly
when a stated guard holds and to leave exactly the stated tables, or to change nothing. Over these steps, the `*Runs`
modules prove what every run keeps. The `*Laws` and `*Steps` modules say in the fields of the tables when a step commits,
what it writes and what a result means, so that no definition rests on itself alone.

## Layout

| files | subject |
|---|---|
| Common, Text, StringSort, Decimal | optional values, outcomes, string operations, sorting, numerals |
| Calendar, AssetOverview | civil dates after ECMA-262; adding and counting months, warranties |
| Disposals, DisposalRuns, DisposalLaws | the disposal workflow and its invariant over all cases and assets |
| ImportStaging, StagingLaws | checking and storing an import batch |
| AssetImports, ImportRuns, ImportRollback, ImportLaws | commit and rollback among the other writers of the register |
| ImportPipeline, ImportFuture | what a clean list can still be refused for; which imports can still be undone |
| Enrolment, EnrolmentDevices | quota-limited enrolment as interleaved reads and conditional commits; agents per device |
| Discovery, DiscoveryRuns, DiscoveryLaws, DiscoverySteps | matching agents with assets, the inbox and the links |
| Fingerprint, FingerprintLaws | the hashed text in Go and in TypeScript, and which devices it tells apart |
| Base64Url, SecretEnvelope | base64url and the `v1.iv.tag.data` envelope |
| GroupMapping | the group-to-role text: parser, printer and role |
| DepartmentCode | generated department codes |
| LoginLimiter, LoginOverlap | the brake on failed logins, in sequence and overlapping |
| Incidents, IncidentRuns, IncidentLaws | the incident workflow |
| IncidentStats, IncidentStatsLaws | statistics of incidents over a period |
| IncidentStaff, IncidentOverlap | departments of incidents and assignees; overlapping requests |
| AnnexA, Soa, Documents, ComplianceLaws | the control catalogue, the Statement of Applicability, documented information |
| SoaOverlap, DocumentOverlap | the same with requests that overlap |

`dafny verify dfyconfig.toml` checks everything.

## Assumptions

- A service method is one atomic step on the tables it writes, reads before its transaction included. Where reads and a
  later write are two steps, with others in between, the module says so: Enrolment, and the `*Overlap` modules for logins,
  the Statement of Applicability, documents and incidents. A transaction itself is one step.
- The database enforces its unique indexes, foreign keys and triggers, and a transaction that violates one changes nothing.
  Column widths and number ranges are modelled where a request can exceed them: imports, direct writes to assets, and assets
  made from a device. Elsewhere the request validation is as narrow as the columns. Outside imports and asset texts no text
  holds the character 0. Disks are smaller than 10^21 gigabytes, above which a number is printed with an exponent.
- Generated keys, agent credentials and initialisation vectors are inputs. New keys and credentials are fresh.
- Trimming, case folding and sorting work on ASCII. Accents are removed before `DepartmentCode` starts.
- The clock does not run backwards. Time values are unbounded integers of milliseconds; the range limit of Date
  (8.64e15 ms on either side of the epoch) is not modelled.
- Texts are sequences of Unicode characters; a JavaScript string with half of a surrogate pair is none.
- AES-GCM, SHA-256, scrypt, UTF-8 and the platform's base64url reader are abstract; `SecretEnvelope.Lawful` states the laws
  used: opening what was sealed gives it back, decoding a text's UTF-8 bytes gives the text back, and the reader inverts the
  encoder. The reader may accept more. A hash that is compared comes with the request that carries the hashed text.

## What the proofs turned up

The code is modelled as it is; each point below is a proved statement.

- A list with a repeated row number is not reported row by row: the unique index on batch and row number
  (apps/api/prisma/schema.prisma, line 1179) refuses the whole batch (`ImportStaging.Stage`).
- Deleting a draft, rejected or cancelled disposal case can free an asset that another case has reserved
  (`DisposalRuns.RemovingADraftCanBreakCustody`); `RemoveKeepsInvIff` says exactly when it does not.
- Inventory items hold up an import rollback only while their session exists (`ImportRollback.InventoryHoldsUpRollback`).
- Two overlapping enrolments can replace the credential of an active agent (`Enrolment.StaleEnrolmentTakesActive`).
- A posted fingerprint is compared in lower case but looked up as posted, so one device can have two active agents
  (`EnrolmentDevices.TwoAgentsOneDevice`, with the exact condition in `OnePerDeviceIff`).
- Requests that overlap between check and write can bring a superseded Statement of Applicability back, leave a document in
  force without a file or next to its successor, reopen a closed incident and compute a wrong priority. `SoaOverlap`,
  `DocumentOverlap` and `IncidentOverlap` say for every interleaving exactly which writes do, and what none of them breaks.
- Overlapping failed logins count as one, and a late record can lift a running block
  (`LoginOverlap.OverlappingFailuresCountOnce`, `LoginOverlap.LateFailureLiftsBlock`); `BlockLastsIff` says exactly when.
- A list staged without any fault can still be refused when it is committed, for exactly four reasons
  (`ImportPipeline.CleanBatchCommitsIff`).
- Ignoring a discovered device ends with the next report of its agent (`DiscoveryRuns.IgnoredLastsIff` says exactly when
  it lasts), and nothing ever unlinks an agent, although reopening asks for it (`DiscoveryRuns.LinkedStaysLinked`).
- A closed incident can be closed again, which rewrites its closing time (`IncidentRuns.ClosingAgainRewritesTheTime`).
  Nothing else of a finished incident changes (`IncidentRuns.FinishedIsSameIff`).
- The department of an incident and that of its open assignment come apart when the assignee of a resolved incident has
  moved and is named once more (`IncidentStaff.DriftIsReachable`), and only then (`AgreesAlongIff`, `OnlyResolvedDrift`).
- Trend labels are UTC dates, a day early in zones ahead of UTC, and the "previous period" of a month is as long as the
  current month rather than the previous one (`IncidentStats.LabelIsOwnDayIff`, `IncidentStats.PreviousMonthIff`).
- The comment above `issueDocument` says that two versions are never both current; that holds for direct successors only
  (`Documents.TwoInForce`, with the exact condition in `Documents.RunKeepsOneInForceIff`). A withdrawn document turns into a
  superseded one when its successor is issued (`Documents.WithdrawalLastsIff`).
- An empty secret cannot be decrypted again (`SecretEnvelope.DecryptOfEncryptIff`), and a group called `__proto__` is
  dropped from a mapping (`GroupMapping.CollectIsLastAssignment`).
- Date.UTC and the Date constructor read the years 0 to 99 as 1900 to 1999; the calendar results say exactly what that
  changes.

## Model

| member | source | states |
|---|---|---|
| Calendar.MonthStartIsClosedForm | apps/api/src/modules/assets/asset-overview.ts:20 | adding up month lengths from January 1970 gives the leap-year formula of section 21.4.1 of ECMA-262 for every month, before and after the epoch |
| Calendar.MonthOfUnique | apps/api/src/modules/assets/asset-overview.ts:14-22 | the month read off a day number is the only one whose days include it, so getUTCFullYear and getUTCMonth invert Date.UTC |
| Calendar.DayOfDate | apps/api/src/modules/assets/asset-overview.ts:20-22 | a month and a valid day of the month are read back from the day number built from them |
| AssetOverview.OverflowedDate | apps/api/src/modules/assets/asset-overview.ts:20-22 | a day of the month overflows into the next month, and onto another day, exactly when the target month is too short |
| AssetOverview.Repair | apps/api/src/modules/assets/asset-overview.ts:22 | setUTCDate(0) after an overflow lands on the last day of the intended month; without overflow nothing is changed |
| AssetOverview.AddMonths | apps/api/src/modules/assets/asset-overview.ts:19-24 | for every date and integer offset the code returns day min(d, length of the target month) of the target month (the years 0 to 99 count as 1900 to 1999) |
| AssetOverview.AddMonthsIsExactIff | apps/api/src/modules/assets/asset-overview.ts:20 | that remapping of the years 0 to 99 is the only case in which the result is not the plain shift, for all dates and offsets |
| AssetOverview.ShiftedDate | apps/api/src/modules/assets/asset-overview.ts:19-24 | a shifted date lies in the month aimed at, on its own day or the last day of a shorter month |
| AssetOverview.ShiftedIncreases | apps/api/src/modules/assets/asset-overview.ts:19-24 | adding more months always gives a strictly later date |
| AssetOverview.ShiftedTwice | apps/api/src/modules/assets/asset-overview.ts:19-24 | adding a and then b never overshoots adding a+b, with the exact condition (no cut by a shorter month in between) for equality |
| AssetOverview.MonthsBetween | apps/api/src/modules/assets/asset-overview.ts:13-17 | the imperative month count equals the specified number of whole months, zero for reversed dates |
| AssetOverview.WholeMonthsBracket | apps/api/src/modules/assets/asset-overview.ts:13-24 | n whole months do not overshoot `to`, and n+1 do, except exactly when `to` is the last day of a month shorter than the day of `from` |
| AssetOverview.WholeMonthsOfReversed | apps/api/src/modules/assets/asset-overview.ts:13-17 | a `to` on or before `from` counts no months |
| AssetOverview.WholeMonthsOfShifted | apps/api/src/modules/assets/asset-overview.ts:13-24 | counting the n months just added gives n, or n-1 when the day was cut, or 0 for n <= 0 |
| AssetOverview.WarrantyStatus | apps/api/src/modules/assets/asset-overview.ts:33-44 | an explicit expiry wins over purchase plus months; daysLeft is the least whole number of days covering the rest; the state is EXPIRED exactly when they are negative, EXPIRING exactly from 0 to 90 of them, ACTIVE exactly beyond, UNKNOWN exactly without an expiry |
| AssetOverview.StateMeans | apps/api/src/modules/assets/asset-overview.ts:39-43 | in moments: cover is over 86 400 seconds after the expiry, and about to be for 90 days before it |
| AssetOverview.LongerWarrantyIsNoWorse | apps/api/src/modules/assets/asset-overview.ts:33-44 | more warranty months never give a worse state at the same or an earlier moment, for every purchase date |
| Disposals.DisposalsService.CreateCase | apps/api/src/modules/disposals/disposals.service.ts:180-245 | a draft is stored exactly when the wanted assets are distinct, live, eligible and in no active case; it snapshots their statuses and changes no asset |
| Disposals.DisposalsService.SubmitCase | apps/api/src/modules/disposals/disposals.service.ts:247-271 | the item loop reserves exactly the assets of the case, exactly when the case is a non-empty draft and each asset is eligible and in no other active case |
| Disposals.DisposalsService.ApproveCase | apps/api/src/modules/disposals/disposals.service.ts:273-290 | approval needs a submitted case and an approver other than the requester, and changes the case only |
| Disposals.DisposalsService.RejectCase | apps/api/src/modules/disposals/disposals.service.ts:292-310 | rejection needs the same plus every asset still reserved, and gives each asset its snapshot status back |
| Disposals.DisposalsService.StartCase | apps/api/src/modules/disposals/disposals.service.ts:312-324 | only an approved case starts, recording its executor |
| Disposals.DisposalsService.RecordEvidence | apps/api/src/modules/disposals/disposals.service.ts:326-347 | evidence is appended to approved or executing cases only |
| Disposals.DisposalsService.RecordSanitization | apps/api/src/modules/disposals/disposals.service.ts:349-378 | one item is updated; data-bearing items cannot be waived and VERIFIED needs a non-blank method |
| Disposals.DisposalsService.CompleteCase | apps/api/src/modules/disposals/disposals.service.ts:380-449 | completion needs execution, evidence, erased data, the certificates of the disposal type, and reserved assets without open assignment or maintenance; it is refused for a certificate exactly when one of the spelled-out ones is missing, and disposes of exactly its assets |
| Disposals.DisposalsService.CancelCase | apps/api/src/modules/disposals/disposals.service.ts:451-464 | a draft is cancelled without touching assets; an active case gives back its reserved assets; finished cases are refused |
| Disposals.DisposalsService.RestoreAssets | apps/api/src/modules/disposals/disposals.service.ts:466-475 | the loop writes the snapshot status to each item's asset, or changes nothing when one of them is no longer reserved |
| Disposals.DisposalsService.RemoveCase | apps/api/src/modules/disposals/disposals.service.ts:504-556 | deleting a case in any state writes the snapshot statuses back and drops the case |
| DisposalRuns.StepFollows | apps/api/src/modules/disposals/disposals.rules.ts:11-46 | whatever step a guard lets through, its log entry is one that may follow the current status and leads to the new one |
| DisposalRuns.OnCaseStep | apps/api/src/modules/disposals/disposals.service.ts:247-475 | every step on a case keeps: one holder per asset, held assets RESERVED, retired assets DISPOSED, eligible snapshots, sound decisions, replayable logs |
| DisposalRuns.RunKeepsInv | apps/api/src/modules/disposals/disposals.service.ts:180-556 | the invariant over all cases and assets holds through every run in which no case is deleted whose assets another case holds; RunKeepsInvIff has the converse |
| DisposalRuns.RunKeepsInvIff | apps/api/src/modules/disposals/disposals.service.ts:180-556 | a run keeps the invariant in each of its states exactly when every deletion in it meets the condition of RemoveKeepsInvIff |
| DisposalRuns.RunKeepsCases | apps/api/src/modules/disposals/disposals.service.ts:180-556 | sound logs, eligible snapshots and proper decisions of every single case hold through every run, deletions of any case included |
| DisposalRuns.ReachableStates | apps/api/src/modules/disposals/disposals.service.ts:180-556 | from an empty case table and over such runs: no asset in two active or completed cases, reserved and disposed custody, replayable logs of at most four changes, completed cases with separate approver, erased data and required evidence |
| DisposalRuns.ReachableCases | apps/api/src/modules/disposals/disposals.service.ts:180-556 | from an empty case table and in any run: every log replays to the status in at most four changes, every snapshot is an eligible status, completed cases have separate approver, erased data and required evidence |
| DisposalRuns.RankNeverFalls | apps/api/src/modules/disposals/disposals.rules.ts:11-46 | every status change strictly raises a rank, so a case makes at most four |
| DisposalRuns.CompletedIsFrozen | apps/api/src/modules/disposals/disposals.service.ts:380-449 | a completed case is never changed again for as long as it exists |
| DisposalRuns.RetiredStayDisposed | apps/api/src/modules/disposals/disposals.service.ts:380-449 | the assets of a completed case stay DISPOSED in every later state |
| DisposalRuns.HeldAssetStatus | apps/api/src/modules/disposals/disposals.service.ts:180-271 | an asset of an active or completed case is RESERVED or DISPOSED, so other modules are free to write any other asset |
| DisposalRuns.ReleaseGivesBack | apps/api/src/modules/disposals/disposals.service.ts:292-310 | reject, cancel and delete put exactly that case's assets back to their snapshot statuses and leave all others alone |
| DisposalRuns.RestoreIsIdentityIff | apps/api/src/modules/disposals/disposals.service.ts:466-475 | restoring changes nothing exactly when each asset still has its snapshot status |
| DisposalRuns.CancelUndoesSubmitIff | apps/api/src/modules/disposals/disposals.service.ts:247-271 | cancelling right after submitting restores the register exactly when no asset changed status since the case was raised |
| DisposalRuns.RemoveKeepsInvIff | apps/api/src/modules/disposals/disposals.service.ts:504-556 | deleting a case keeps the invariant exactly when no other case holds one of its assets, which active and completed cases always meet |
| DisposalRuns.UnchangedAssetsAreFree | apps/api/src/modules/disposals/disposals.service.ts:504-556 | assets still at their snapshot status are held by nobody, so deleting such a case is safe |
| DisposalRuns.RemovingADraftCanBreakCustody | apps/api/src/modules/disposals/disposals.service.ts:504-556 | counterexample run: deleting a draft frees a laptop that another case has reserved |
| DisposalLaws.CompletedHasDocuments | apps/api/src/modules/disposals/disposals.service.ts:477-492 | in every run a completed case has a destruction certificate if its assets were destroyed, a contract or handover minutes if they were sold, handover minutes if they were donated, returned or recycled, an erasure certificate and verified erasure if any holds data, and an approver other than the requester |
| DisposalLaws.WayOfCase | apps/api/src/modules/disposals/disposals.rules.ts:11-46 | in every run a case has come to its status by one of ten ways: completed only after submission, approval and start, in that order and once each |
| DisposalLaws.CreatedCase | apps/api/src/modules/disposals/disposals.service.ts:180-245 | told by fields: which wanted assets make a draft, and what it holds of each |
| DisposalLaws.SubmittableCase | apps/api/src/modules/disposals/disposals.service.ts:247-259 | told by fields: a draft with assets, all READY, RETURNED or BROKEN and in no other case under way |
| DisposalLaws.SubmittedCase | apps/api/src/modules/disposals/disposals.service.ts:260-269 | submission makes the assets of the case RESERVED and writes nothing else of them, and no other asset |
| DisposalLaws.DecidedCase | apps/api/src/modules/disposals/disposals.service.ts:273-310 | approval and rejection record the decider; a rejection writes the snapshot statuses to the assets of the case and to no other |
| DisposalLaws.SanitizedItem | apps/api/src/modules/disposals/disposals.service.ts:349-378 | told by fields: which items take which outcome, and that only this item of the case is written, with the actor for a verified erasure and nobody otherwise |
| DisposalLaws.CompletedCase | apps/api/src/modules/disposals/disposals.service.ts:380-449 | told by fields: with which documents an executing case completes, and that its assets, and no others, are DISPOSED and without user, custodian, department, warehouse and location; the executor on record stays |
| DisposalLaws.EndedCase | apps/api/src/modules/disposals/disposals.service.ts:451-556 | which cases can be cancelled; cancelling an active case and deleting any write the same statuses |
| DisposalLaws.WrittenElsewhere | apps/api/src/modules/disposals/disposals.service.ts:180-271 | the assumption on other modules, told by fields: they leave the status of an asset alone exactly while a case under way holds it or a completed one has retired it |
| ImportStaging.ValidateImportPayload | apps/api/src/modules/asset-imports/asset-imports.rules.ts:4-23 | the loops list the faults of a payload in the order of the fields: missing fields, malformed ids, bad cost, warranty and date |
| ImportStaging.PayloadFaultsAre | apps/api/src/modules/asset-imports/asset-imports.rules.ts:4-23 | that list holds exactly the faults of the payload, each once |
| ImportStaging.CheckRepeats | apps/api/src/modules/asset-imports/asset-imports.service.ts:57-64 | with the memory of earlier rows, a row gets exactly the repeat faults it deserves, naming the first holder, and the memory moves on by one row |
| ImportStaging.FindRepeats | apps/api/src/modules/asset-imports/asset-imports.service.ts:47-65 | one pass with a set and a map finds exactly the repeated row numbers and identities |
| ImportStaging.OccupiedBy | apps/api/src/modules/asset-imports/asset-imports.service.ts:66-86 | querying only the assets that share a text with the batch is enough to decide for every row whether its texts are taken |
| ImportStaging.CheckRegister | apps/api/src/modules/asset-imports/asset-imports.service.ts:82-103 | the later passes add exactly the faults against the register: taken identities and inactive categories or warehouses |
| ImportStaging.Stage | apps/api/src/modules/asset-imports/asset-imports.service.ts:45-142 | a batch is stored exactly when no row number repeats, every number fits 32 bits and no payload holds the character 0 (the rows have a unique index on batch and number), and then reports exactly the faults of every row with matching counts |
| ImportStaging.ValidRowsAreDistinct | apps/api/src/modules/asset-imports/asset-imports.service.ts:54-65 | two VALID rows never share a row number, nor a trimmed case-insensitive assetTag, barcode or serial number |
| ImportStaging.ValidRowsAreFree | apps/api/src/modules/asset-imports/asset-imports.service.ts:66-103 | a VALID row has no identity present under any field of a live asset, all required fields, and an active category and warehouse |
| ImportStaging.RepeatsAreEarlierRows | apps/api/src/modules/asset-imports/asset-imports.service.ts:57-64 | a row is blamed for a repeated value exactly when an earlier row has that value |
| ImportStaging.FirstHolderIsNotBlamed | apps/api/src/modules/asset-imports/asset-imports.service.ts:57-64 | the row named by a fault is the first that has the value and is itself not blamed for it |
| ImportStaging.CountsOfBatch | apps/api/src/modules/asset-imports/asset-imports.service.ts:104-112 | validRows + invalidRows is the row count, and invalidRows is 0 exactly when no row has any fault |
| StagingLaws.CleanPayloadIff | apps/api/src/modules/asset-imports/asset-imports.rules.ts:4-23 | a payload has no fault exactly when its five required texts are not blank, its references are blank or UUIDs, its cost is a number from 0 up, its warranty a whole one, and its date a date |
| StagingLaws.IsUuidIff | apps/api/src/modules/asset-imports/asset-imports.rules.ts:1-4 | digit by digit: 8, 4, 4, 4 and 12 hexadecimal digits, a version from 1 to 5 and the variant of RFC 4122 |
| StagingLaws.IdentityMeans | apps/api/src/modules/asset-imports/asset-imports.service.ts:57-64 | identities are compared without blanks around them and in lower case |
| StagingLaws.TakenMeans | apps/api/src/modules/asset-imports/asset-imports.service.ts:66-90 | a live asset occupies its tag, barcode and serial number against every field of a row, and never the empty text |
| StagingLaws.UnknownMeans | apps/api/src/modules/asset-imports/asset-imports.service.ts:91-103 | a category or warehouse is unknown exactly when it has the form of an id and is not among the active ones |
| StagingLaws.InsertableMeans | apps/api/src/modules/asset-imports/asset-imports.service.ts:113-142 | the rows are stored exactly when no number repeats, each is below 2^31, and no name or text holds the character 0 |
| StagingLaws.StoredMeans | apps/api/src/modules/asset-imports/asset-imports.service.ts:104-142 | the stored batch has every row with its number and payload, VALID exactly when no fault was found, and counts its rows by status |
| AssetImports.AssetRegister.CommitBatch | apps/api/src/modules/asset-imports/asset-imports.service.ts:144-228 | the row loop commits all rows or nothing: exactly when the batch is staged, clean and non-empty, every warehouse and reference exists, every text, number and date fits its column and no insert collides |
| AssetImports.AssetRegister.RollbackBatch | apps/api/src/modules/asset-imports/asset-imports.service.ts:230-322 | the two loops roll back all assets or nothing: exactly when the batch is whole, every asset is untouched and no tombstone collides |
| AssetImports.AssetRegister.CreateAsset | apps/api/src/modules/assets/assets.service.ts:299-368 | a received asset that fits the columns is READY with one history entry, or nothing is stored |
| AssetImports.AssetRegister.UpdateAsset | apps/api/src/modules/assets/assets.service.ts:383-441 | an update that fits the columns changes one live asset and adds a history entry, unless a key is taken |
| AssetImports.AssetRegister.RemoveAsset | apps/api/src/modules/assets/assets.service.ts:493-559 | a removal puts the DELETED tombstone on an idle asset (any asset for an administrator), archives its keys and adds a history entry |
| ImportRuns.WritesKeepUnique | apps/api/src/modules/asset-imports/asset-imports.service.ts:165-188 | a transaction that does not collide keeps every tag, barcode, serial number and system UUID unique over all assets, deleted ones included |
| ImportRuns.WritesBeside | apps/api/src/modules/asset-imports/asset-imports.service.ts:161-205 | writes to other assets go through beside extra assets exactly when they go through without them and take none of their keys, with the same result |
| ImportRuns.PerformKeepsInv | apps/api/src/modules/asset-imports/asset-imports.service.ts:144-322 | every step keeps: unique keys, batches whose rows agree with their status, committed rows with stored distinct assets, and no asset in two batches |
| ImportRuns.RunKeepsInv | apps/api/src/modules/asset-imports/asset-imports.service.ts:144-322 | the invariant holds through every run of stage, commit, rollback, create, update, remove and foreign writes |
| ImportRuns.WholeBatch | apps/api/src/modules/asset-imports/asset-imports.service.ts:262-263 | in every reachable state a committed batch is complete, so rollback never meets the incomplete case it guards against |
| ImportLaws.CommittedColumns | apps/api/src/modules/asset-imports/asset-imports.service.ts:161-205 | column by column: after a commit the asset of row i has the tag, barcode, serial number and details of the row, and the location of its warehouse; it is READY with no custodian, no records and one history entry, and the row names it |
| ImportLaws.CommitGuardMeans | apps/api/src/modules/asset-imports/asset-imports.service.ts:150-165 | told by fields: which batches a commit takes on: staged, with rows, none of them invalid, each with known warehouse and references and columns that fit |
| ImportLaws.ImportedColumns | apps/api/src/modules/asset-imports/asset-imports.service.ts:161-205 | from a staged list on: the texts of each committed asset are those of the payload without blanks around them, its cost and warranty the payload's numbers, its date the payload's date, and blank optional texts are absent |
| ImportLaws.RegisterMeans | apps/api/src/modules/asset-imports/asset-imports.service.ts:66-103 | staging compares with the tag, barcode and serial number of every live asset and of no other, and with the active categories and warehouses |
| ImportLaws.CreatedColumns | apps/api/src/modules/assets/assets.service.ts:299-368 | the same columns for an asset received by itself, and no other asset changes |
| ImportLaws.FitsIff | apps/api/src/modules/asset-imports/asset-imports.service.ts:165-189 | which rows the columns take: each text within its width and without the character 0, storable dates, costs of at most 16 digits before the point, 32-bit months |
| ImportLaws.CreateIff | apps/api/src/modules/assets/assets.service.ts:299-368 | an asset is received exactly when the catalogue knows its warehouse and references, its columns fit, and no other asset, deleted or not, has its tag, barcode, serial number or system UUID |
| ImportLaws.UpdateIff | apps/api/src/modules/assets/assets.service.ts:383-441 | an update goes through exactly for a live asset whose columns fit and whose keys nobody else has; it keeps every key it does not name and everything else but details, status and history |
| ImportLaws.RemoveIff | apps/api/src/modules/assets/assets.service.ts:493-559 | who can remove which asset; it keeps its details, gets its tombstone for a tag and a barcode, its old keys in the archive, and no custodian |
| ImportLaws.UntouchedMeans | apps/api/src/modules/asset-imports/asset-imports.service.ts:264-302 | an asset can be taken back exactly when it is live, READY, held by nobody, without records, with one history entry; it then keeps everything but tag, barcode and serial number |
| ImportLaws.RollbackGuardMeans | apps/api/src/modules/asset-imports/asset-imports.service.ts:236-281 | told by rows: a rollback is taken on for a committed batch with as many committed rows as it counts, each naming an asset that can be taken back |
| ImportLaws.RollbackMeans | apps/api/src/modules/asset-imports/asset-imports.service.ts:305-322 | a rollback marks the committed rows of its batch, keeps their assets' ids, and writes no other batch |
| ImportRollback.CommitAdds | apps/api/src/modules/asset-imports/asset-imports.service.ts:161-205 | a commit adds exactly one READY asset with one history entry per row and changes no other asset or batch |
| ImportRollback.CommitCommitsIff | apps/api/src/modules/asset-imports/asset-imports.service.ts:165-225 | a commit whose checks pass is refused as a conflict exactly when some key of the batch is taken by any asset, deleted ones included, or by another row |
| ImportRollback.StepBesideIff | apps/api/src/modules/assets/assets.service.ts:299-441 | a step on other assets commits beside the batch exactly when it commits without it and takes no key of the batch |
| ImportRollback.CommitThenRollbackIsInvisible | apps/api/src/modules/asset-imports/asset-imports.service.ts:144-322 | for every batch: commit, any committed steps on other assets, rollback leaves the live register, the other batches and the catalogue as the same steps leave them without the batch |
| ImportRollback.RollbackCommitsIff | apps/api/src/modules/asset-imports/asset-imports.service.ts:264-304 | after commit and any steps on other assets the rollback goes through exactly when no asset is already named like one of its tombstones |
| ImportRollback.KeysAreFreed | apps/api/src/modules/asset-imports/asset-imports.service.ts:294-302 | after rollback nobody has a tag, barcode or serial number the batch had, unless it equals one of its own tombstones |
| ImportRollback.WorkSpoils | apps/api/src/modules/assets/assets.service.ts:407-419 | which writes leave a lasting trace on a received asset: every update and removal, and foreign writes exactly when they add history, assignments, returns, transfers or maintenance |
| ImportRollback.SpoiledBatchStays | apps/api/src/modules/asset-imports/asset-imports.service.ts:264-281 | one such asset keeps its batch COMMITTED in every later state, and each rollback attempt changes nothing |
| ImportRollback.InventoryHoldsUpRollback | apps/api/src/modules/asset-imports/asset-imports.service.ts:275 | counterexample for inventory items: they block the rollback only until their session is deleted, for every batch and asset |
| ImportPipeline.RunKeepsRegister | apps/api/src/modules/asset-imports/asset-imports.service.ts:144-322 | through every run each asset has a tag, a barcode and a history, and a deleted one is named by its tombstone and has no serial number |
| ImportPipeline.ValidRowIsClean | apps/api/src/modules/asset-imports/asset-imports.service.ts:66-103 | a row that staging finds VALID, read as a row to commit, shares no key with a live asset and names an active category and warehouse |
| ImportPipeline.CleanBatchCommitsIff | apps/api/src/modules/asset-imports/asset-imports.service.ts:45-228 | a list staged without faults and committed against the same register is refused exactly for a missing READY status, an unknown model or manufacturer, a tag or barcode equal to the tombstone of a deleted asset, or a text, number or date that does not fit its column |
| ImportPipeline.LongTextIsStaged | apps/api/src/modules/asset-imports/asset-imports.rules.ts:4-23 | witness for the last reason: staging finds no fault in a row whose tag, name and barcode are longer than their columns |
| ImportFuture.StuckForever | apps/api/src/modules/asset-imports/asset-imports.service.ts:264-304 | an asset that was worked with, or is named like the tombstone of an earlier asset of its batch, keeps the batch COMMITTED through every run |
| ImportFuture.RollbackPossibleIff | apps/api/src/modules/asset-imports/asset-imports.service.ts:230-322 | some continuation lets the rollback of a committed batch through exactly when no asset of it has been worked with and none is named like the tombstone of an earlier one (in a register of at most 10^39 assets, more than there are UUIDs) |
| Enrolment.DiscoveryService.FindAgent | apps/api/src/modules/discovery/discovery.service.ts:174 | the agent of a fingerprint, which is unique |
| Enrolment.DiscoveryService.BeginEnrolment | apps/api/src/modules/discovery/discovery.service.ts:171-176 | a token is refused exactly when it is missing, revoked or has expiresAt at or before now, and then a device exactly when its fingerprint has an active agent |
| Enrolment.DiscoveryService.FinishEnrolment | apps/api/src/modules/discovery/discovery.service.ts:177-214 | the conditional update and the agent row commit together; it fails exactly when the token is revoked, expired or used up, or, for a new device, another agent took the fingerprint, and then nothing is consumed |
| Enrolment.DiscoveryService.RevokeEnrollmentToken | apps/api/src/modules/discovery/discovery.service.ts:124-141 | revoking a token sets its flag and nothing else |
| Enrolment.DiscoveryService.RevokeEndpointAgent | apps/api/src/modules/discovery/discovery.service.ts:142-160 | revoking an agent sets its flag and nothing else |
| Enrolment.DiscoveryService.Authenticate | apps/api/src/modules/discovery/discovery.service.ts:223-225 | a credential identifies an agent that has it and is not revoked, or nobody |
| Enrolment.FinishMeans | apps/api/src/modules/discovery/discovery.service.ts:177-214 | a committed enrolment raises the count of its token by one, leaves the agent of the device with the new credential, active, and changes no other token or agent |
| Enrolment.BeginMeans | apps/api/src/modules/discovery/discovery.service.ts:171-176 | told by fields: when an enrolment gets past its reads, and what it remembers of the token and of the agent with the fingerprint |
| Enrolment.FinishIff | apps/api/src/modules/discovery/discovery.service.ts:177-214 | told by fields: when it commits, against the tables as they are by then; a request that does not commit leaves no trace |
| Enrolment.NextKeepsInv | apps/api/src/modules/discovery/discovery.service.ts:124-228 | every interleaved step keeps counters equal to logged enrolments and within quota, unique fingerprints and fresh credentials |
| Enrolment.ReachableStates | apps/api/src/modules/discovery/discovery.service.ts:162-228 | under any interleaving a token has counted exactly its committed enrolments, never more than maxEnrollments, and no fingerprint has two agents |
| Enrolment.ClosedTokenStays | apps/api/src/modules/discovery/discovery.service.ts:177-186 | once a token is revoked or its expiresAt has passed, it stays so and its count never rises again, even by an enrolment that read it before |
| Enrolment.OnlyNewestCredential | apps/api/src/modules/discovery/discovery.service.ts:187-202 | of all credentials an agent was given it accepts exactly the newest, while not revoked |
| Enrolment.UnusedCredential | apps/api/src/modules/discovery/discovery.service.ts:223-225 | an accepted credential was handed out by a committed enrolment of that very agent |
| Enrolment.SerialEnrolmentTakesRevoked | apps/api/src/modules/discovery/discovery.service.ts:174-176 | an enrolment that commits right after its reads changes no agent but a revoked one with the device's fingerprint |
| Enrolment.StaleEnrolmentTakesActive | apps/api/src/modules/discovery/discovery.service.ts:174-202 | counterexample for interleaved requests: the second of two enrolments that read the same revoked agent replaces the credential of the now active agent |
| Enrolment.FinishTakesActiveIff | apps/api/src/modules/discovery/discovery.service.ts:187-202 | a commit replaces an active agent exactly when its agent was re-enrolled since it was read |
| EnrolmentDevices.OnePerDeviceIff | apps/api/src/modules/discovery/discovery.service.ts:72-208 | no two agents have fingerprints that differ in case only throughout a run exactly when no enrolment of it commits a new agent for a device that has one under another spelling |
| EnrolmentDevices.TwoAgentsOneDevice | apps/api/src/modules/discovery/discovery.service.ts:72-208 | counterexample run from the empty tables: one device enrols two active agents, posting its fingerprint in two spellings |
| EnrolmentDevices.LowerFingerprintsSuffice | apps/api/src/modules/discovery/discovery.service.ts:72-208 | if fingerprints were put into lower case first, no device would ever have two agents |
| Discovery.FiveRowsDecide | apps/api/src/modules/discovery/discovery.service.ts:291-303 | fetching at most five candidates, in any order, decides exactly as all candidates would |
| Discovery.DecisionMeaning | apps/api/src/modules/discovery/discovery.rules.ts:51-68 | PENDING, MATCHED and CONFLICT mean none, one and several live candidates; 99, 95 and 80 mean agreement by system UUID, serial number and MAC |
| DiscoveryLaws.DecisionOfInventory | apps/api/src/modules/discovery/discovery.service.ts:265-330 | a reported inventory is PENDING exactly when no live asset has its system UUID, serial number or first hardware address, letter case apart, CONFLICT exactly when two do, and MATCHED with an asset exactly when that one alone does |
| DiscoveryLaws.ConfidenceOfInventory | apps/api/src/modules/discovery/discovery.rules.ts:51-68 | the confidence of a match is 99 exactly when the UUIDs agree, else 95 exactly when the serial numbers do, else 80; placeholders and blanks agree with nothing |
| DiscoveryLaws.InboxAfterReport | apps/api/src/modules/discovery/discovery.service.ts:265-330 | what the inbox item of an unlinked agent says after any report, told by the fields of the report and of the assets; no other item changes |
| Discovery.DiscoveryService.FindCandidates | apps/api/src/modules/discovery/discovery.service.ts:291-302 | at most five distinct matching live assets, all of them when there are fewer |
| Discovery.DiscoveryService.Reconcile | apps/api/src/modules/discovery/discovery.service.ts:265-330 | the inbox item becomes LINKED to the agent's asset, or shows the decision on the register as it is |
| Discovery.DiscoveryService.StoreSnapshotAndReconcile | apps/api/src/modules/discovery/discovery.service.ts:246-264 | a snapshot is kept once per collection time, and the item is reconciled with the report itself |
| Discovery.DiscoveryService.EnrollAgent | apps/api/src/modules/discovery/discovery.service.ts:162-216 | the agent of the posted fingerprint, or a new one: exactly with a matching hash, a collection time in the window and no active agent it is (re)activated with its link kept, then reconciled |
| Discovery.DiscoveryService.IngestInventory | apps/api/src/modules/discovery/discovery.service.ts:221-244 | a report is stored and reconciled exactly with a matching hash, an active agent of that name, 15 seconds since its last report, and a collection time in the window |
| Discovery.DiscoveryService.LinkAsset | apps/api/src/modules/discovery/discovery.service.ts:370-407 | an agent is linked exactly to a live asset that no other agent is linked to |
| Discovery.DiscoveryService.IgnoreDevice | apps/api/src/modules/discovery/discovery.service.ts:408-435 | ignoring clears suggestion and resolution and leaves the agent's link alone |
| Discovery.DiscoveryService.FindLatest | apps/api/src/modules/discovery/discovery.service.ts:440 | the snapshot collected last |
| Discovery.DiscoveryService.ReopenDevice | apps/api/src/modules/discovery/discovery.service.ts:436-445 | an item is reconciled again exactly when its agent is unlinked and has a snapshot |
| Discovery.DiscoveryService.CreateAssetFromDevice | apps/api/src/modules/discovery/discovery.service.ts:447-536 | an undecided item is turned into a new asset linked to its agent, exactly unless a unique key is taken or a text read off the device (processor, disks, system, address) does not fit its column |
| DiscoverySteps.IngestMeans | apps/api/src/modules/discovery/discovery.service.ts:221-264 | told by fields: which reports are accepted, and what agent, snapshots and inbox hold after one; the first inventory of a moment is kept |
| DiscoverySteps.EnrollMeans | apps/api/src/modules/discovery/discovery.service.ts:162-216 | told by fields: a device enrols under a new agent, or again under the revoked agent of its fingerprint |
| DiscoverySteps.EnrolledMeans | apps/api/src/modules/discovery/discovery.service.ts:162-216 | an agent that enrols again keeps its link and its snapshots, and gets the key and a reconciled inbox item |
| DiscoverySteps.LinkMeans | apps/api/src/modules/discovery/discovery.service.ts:370-407 | told by fields: which assets a device can be linked to, and what agent and item hold then |
| DiscoverySteps.ReopenMeans | apps/api/src/modules/discovery/discovery.service.ts:436-445 | an item is decided again by the inventory collected last, exactly when its agent has no link |
| DiscoverySteps.RowMeans | apps/api/src/modules/discovery/discovery.service.ts:447-536 | the identifiers of the new asset: tag and barcode trimmed, UUID and serial number unless placeholders, and the first hardware address |
| DiscoverySteps.DiskMeans | apps/api/src/modules/discovery/discovery.service.ts:447-536 | a disk is described by its model, or its name without one, and its size in gigabytes of 2^30 bytes, rounded to the nearest |
| DiscoverySteps.CreateMeans | apps/api/src/modules/discovery/discovery.service.ts:447-536 | told by fields: when a device becomes an asset, width by width and key by key, and what the three tables hold then |
| DiscoveryRuns.ReconcileKeepsInv | apps/api/src/modules/discovery/discovery.service.ts:265-330 | a reconciliation mends the item of its agent whatever it was before and leaves all others sound |
| DiscoveryRuns.PerformKeepsInv | apps/api/src/modules/discovery/discovery.service.ts:265-536 | every step keeps links injective and every inbox item in agreement with its agent |
| DiscoveryRuns.ReachableStates | apps/api/src/modules/discovery/discovery.service.ts:265-536 | in every reachable state no two agents share an asset, undecided items have an unlinked agent and no resolution, LINKED and CREATED items resolve to the agent's asset, and MATCHED holds exactly when a suggestion is set |
| DiscoveryRuns.ConfidenceMeaning | apps/api/src/modules/discovery/discovery.rules.ts:61-67 | confidence 80 of a MATCHED item means a MAC match, 95 a serial and 99 a system UUID match, on the register as it was when the device was last seen |
| DiscoveryRuns.ReportEndsIgnoring | apps/api/src/modules/discovery/discovery.service.ts:308-329 | a report always ends IGNORED: the item is LINKED exactly when its agent is linked, and shows a decision otherwise |
| DiscoveryRuns.IgnoredStaysIff | apps/api/src/modules/discovery/discovery.service.ts:265-445 | an ignored item stays ignored in a step exactly unless its agent enrols or reports, or it is reopened or linked |
| DiscoveryRuns.IgnoredLastsIff | apps/api/src/modules/discovery/discovery.service.ts:265-445 | an item stays ignored throughout a run exactly when none of these comes |
| DiscoveryRuns.LinkedStaysLinked | apps/api/src/modules/discovery/discovery.service.ts:439 | no step takes a link away, so the item of a linked agent can be reopened in no later state |
| DiscoveryRuns.ReopenIff | apps/api/src/modules/discovery/discovery.service.ts:436-445 | every inbox item can be reopened exactly when its agent is unlinked; the missing-snapshot case does not arise |
| DiscoveryRuns.OnlyLinkMoves | apps/api/src/modules/discovery/discovery.service.ts:370-407 | the asset of a linked agent changes only by linking that agent elsewhere |
| DiscoveryRuns.ReportsAreSpaced | apps/api/src/modules/discovery/discovery.service.ts:227 | whatever happens in between, an agent is heard by a report no earlier than 15 seconds after its last enrolment or report |
| DiscoveryRuns.SnapshotsStayInTime | apps/api/src/modules/discovery/discovery.service.ts:61-67 | in every run no snapshot is more than ten minutes ahead of the last report of its agent |
| Fingerprint.SanitizeIdempotent | apps/agent/internal/identity/fingerprint.go:21-27 | sanitising a hardware identifier twice changes nothing more |
| Fingerprint.AgentHashInput | apps/agent/internal/identity/fingerprint.go:31-50 | the agent's loop and sort build the specified text |
| Fingerprint.CollectInterfaces | apps/agent/internal/inventory/collector.go:43-63 | the non-loopback interfaces with upper-cased hardware and sorted IP addresses, each as often as found, ordered by name |
| FingerprintLaws.CollectedMeans | apps/agent/internal/inventory/collector.go:43-63 | an interface with upper-cased address and ordered IP addresses is reported as often as the platform lists it, loopback interfaces aside |
| Fingerprint.Collect | apps/agent/internal/inventory/collector.go:28-33 | what the agent sanitises and sorts before hashing does not change the hashed text |
| Fingerprint.ServerHashInput | apps/api/src/modules/discovery/discovery.rules.ts:33-49 | the server's loop and sort build the specified text from a body with optional fields |
| Fingerprint.FromPayloadOfToPayload | apps/api/src/modules/discovery/discovery.rules.ts:33-40 | leaving empty fields out of the body and reading them back is the identity |
| FingerprintLaws.PayloadMeans | apps/agent/internal/model/inventory.go:37-61 | the body the agent sends: each field as it is, and left out exactly when it is empty |
| Fingerprint.AgentAndServerAgree | apps/agent/internal/identity/fingerprint.go:31-50 | for every device the Go and the TypeScript code hash the same text |
| Fingerprint.OrderOfInterfacesIsIrrelevant | apps/agent/internal/identity/fingerprint.go:38-45 | permuting the network interfaces leaves the text unchanged |
| Fingerprint.CollectingChangesNothing | apps/agent/internal/inventory/collector.go:30-33 | sanitising, upper-casing and permuting before the hash change nothing in it |
| FingerprintLaws.TextDeterminesDevice | apps/agent/internal/identity/fingerprint.go:31-50 | without the separator in any field two devices have the same text exactly when their four identifiers and the multisets of their hardware addresses agree, and, when all of these are empty, hostname, OS family and architecture too; the one exception is stated: three names in order may read like the three addresses of a device without identifiers |
| FingerprintLaws.IdentifierIsHashed | apps/agent/internal/identity/fingerprint.go:10-27 | an identifier counts trimmed and in lower case, and the twelve placeholder texts of vendors count as empty |
| FingerprintLaws.PartsOf | apps/agent/internal/identity/fingerprint.go:31-50 | the order of the parts: UUID, serial number, manufacturer, model, then the addresses in order, or the three names when there is nothing else |
| StringSort.SortedIsCanonical | apps/agent/internal/identity/fingerprint.go:44 | sorting forgets the order it was given and is the only ordered arrangement |
| StringSort.LeMeans | apps/agent/internal/identity/fingerprint.go:44 | the order sorted by: a text comes before those it begins, and before those with a larger character where they first differ |
| Base64Url.DecodeOfEncode | apps/api/src/modules/directory/directory-crypto.service.ts:22-30 | base64url (section 5 of RFC 4648) without padding round-trips every byte string |
| Base64Url.LettersMean | apps/api/src/modules/directory/directory-crypto.service.ts:22 | the 64 letters in the order of table 2 of RFC 4648 |
| Base64Url.DigitsMean | apps/api/src/modules/directory/directory-crypto.service.ts:22 | three bytes and their four digits are the same number of 24 bits; one or two bytes are filled up with zero bits |
| Base64Url.EncodeInjective | apps/api/src/modules/directory/directory-crypto.service.ts:22 | different bytes have different encodings |
| Base64Url.EncodeUsesAlphabet | apps/api/src/modules/directory/directory-crypto.service.ts:22-25 | an encoding uses the URL-safe alphabet only, so it never holds the separator '.' |
| Base64Url.CanonicalIffEncoded | apps/api/src/modules/directory/directory-crypto.service.ts:29-34 | a text re-encodes to itself exactly when it is canonical in the sense of section 3.5 of RFC 4648 |
| SecretEnvelope.ParseOfPrint | apps/api/src/modules/directory/directory-crypto.service.ts:22-39 | which envelopes the reader takes back: all with 12-byte iv, 16-byte tag and non-empty data |
| SecretEnvelope.PrintOfParse | apps/api/src/modules/directory/directory-crypto.service.ts:24-39 | any text that reaches the cipher equals the re-printing of its decoded parts |
| SecretEnvelope.AcceptedIffPrinted | apps/api/src/modules/directory/directory-crypto.service.ts:24-39 | the accepted texts are exactly the printed well-formed envelopes, however lenient the platform's decoder is |
| SecretEnvelope.AcceptedTextsAreDistinct | apps/api/src/modules/directory/directory-crypto.service.ts:29-37 | distinct accepted texts hand distinct iv, tag and data to the cipher |
| SecretEnvelope.AcceptedSegmentsAreCanonical | apps/api/src/modules/directory/directory-crypto.service.ts:29-37 | every accepted segment is canonical base64url |
| SecretEnvelope.DecryptOfEncryptIff | apps/api/src/modules/directory/directory-crypto.service.ts:18-43 | decrypting an encryption returns every text except the empty one, which is refused for its format |
| GroupMapping.ReadMapping | apps/api/src/modules/directory/directory.service.ts:70-82 | the line loop parses a text as specified, or refuses it whole |
| GroupMapping.LinesMean | apps/api/src/modules/directory/directory.service.ts:73 | a text is cut at line feeds, each with one carriage return before it or without; the last line keeps its end |
| GroupMapping.CollectIsLastAssignment | apps/api/src/modules/directory/directory.service.ts:73-80 | a text is accepted exactly when no line is invalid, and the last line for a name counts (the key __proto__ is never stored) |
| GroupMapping.LineMeans | apps/api/src/modules/directory/directory.service.ts:73-79 | what a line assigns: the text before the first '=', trimmed, and after it one of ADMIN, IT, HCNS and USER in any letter case |
| GroupMapping.ParseOfPrint | apps/api/src/modules/directory/directory.service.ts:88-90 | printing an accepted mapping in any order and parsing it again gives the same mapping |
| GroupMapping.PrintMeans | apps/api/src/modules/directory/directory.service.ts:88-90 | the printed text has one line per entry: the name, ' = ' and the role in capitals |
| GroupMapping.MappedRole | apps/api/src/modules/directory/directory.service.ts:604-615 | whatever order the entries are walked in, the result is the highest-priority role among the matched groups, USER when none matches |
| GroupMapping.MatchMeans | apps/api/src/modules/directory/directory.service.ts:608-611 | a group matches by its whole name, or as the first `cn=` part of a distinguished name, in any letter case |
| GroupMapping.BestRoleMeans | apps/api/src/modules/directory/directory.service.ts:604-615 | the result is ADMIN when any matched group gives it, else IT, else HCNS, else USER |
| GroupMapping.MoreGroupsNoLesserRole | apps/api/src/modules/directory/directory.service.ts:604-615 | a user in more groups never gets a lesser role |
| DepartmentCode.BaseIsBase | apps/web/src/App.tsx:254 | the base is never empty, has at most 40 characters and no lower-case letter, whatever the name |
| DepartmentCode.BaseOfWords | apps/web/src/App.tsx:254 | the base is the words of the name, the longest runs of letters, digits, '@' and '.', in upper case and joined by dashes, cut after 40 characters; DEPARTMENT for a name without words |
| DepartmentCode.CandidateFits | apps/web/src/App.tsx:258-261 | every code tried has 1 to 50 upper-case characters and ends with its counter |
| DepartmentCode.CandidateMeans | apps/web/src/App.tsx:258-261 | a code tried is the longest beginning of the base that leaves room for a dash and the counter in 50 characters |
| DepartmentCode.CandidatesDiffer | apps/web/src/App.tsx:258-261 | no two counters give the same code, even where the base is cut |
| DepartmentCode.CreateInternalDepartmentCode | apps/web/src/App.tsx:253-263 | the loop ends within one try more than there are codes, and returns the first free candidate, at most 50 characters long |
| LoginLimiter.AuthService.PruneLoginCounters | apps/api/src/auth/auth.service.ts:75-80 | pruning drops counters only in a map of 10000 or more, and never one whose block is running |
| LoginLimiter.AuthService.BeginLogin | apps/api/src/auth/auth.service.ts:115-120 | the half before the password check prunes, refuses a blocked address and otherwise remembers the counter it found |
| LoginLimiter.AuthService.FinishLogin | apps/api/src/auth/auth.service.ts:130-139 | the half after the password check writes by the remembered counter, whatever the map holds by then |
| LoginLimiter.AuthService.Login | apps/api/src/auth/auth.service.ts:114-139 | one login prunes, refuses a blocked address, and otherwise counts a failure or clears the counter |
| LoginLimiter.AttemptMeans | apps/api/src/auth/auth.service.ts:75-139 | in numbers: whom an attempt refuses, which counters it keeps, and that the fifth failure and each one after it block for 900 000 milliseconds |
| LoginLimiter.RecordedMeans | apps/api/src/auth/auth.service.ts:122-139 | the same for the second half of an attempt, by the count it has read |
| LoginLimiter.RunCountsStreaks | apps/api/src/auth/auth.service.ts:118-139 | with fewer than 10000 addresses a counter always tells the failures since the last success and the block of the last one |
| LoginLimiter.FailuresAreSpaced | apps/api/src/auth/auth.service.ts:119-136 | the n-th consecutive failure of an address, n >= 5, comes no earlier than (n-5) windows of 15 minutes after the fifth |
| LoginLimiter.BlockHolds | apps/api/src/auth/auth.service.ts:75-80 | whatever the number of addresses, a block refuses its address until it ends; no pruning and no other address lifts it |
| LoginOverlap.AttemptReadsThenRecords | apps/api/src/auth/auth.service.ts:114-139 | an attempt is a read of the counter followed by a record based on what was read |
| LoginOverlap.SequentialIsInterleaved | apps/api/src/auth/auth.service.ts:114-139 | attempts one after the other leave the same counters as their interleavable halves |
| LoginOverlap.BlockIsLiftedIff | apps/api/src/auth/auth.service.ts:118-139 | a step lifts a running block exactly when it records a right password, or a failure whose own reading was below four |
| LoginOverlap.BlockLastsIff | apps/api/src/auth/auth.service.ts:118-139 | over every interleaving a block lasts to its end exactly when no such record comes before it |
| LoginOverlap.OverlappingFailuresCountOnce | apps/api/src/auth/auth.service.ts:118-135 | from the start of the service, n requests that all read before any of them records leave a count of one and no block |
| LoginOverlap.LateFailureLiftsBlock | apps/api/src/auth/auth.service.ts:118-135 | counterexample run from the start: a request reads, five other failures set a block, and the failure of the first request takes it away |
| LoginOverlap.FailuresAreSpaced | apps/api/src/auth/auth.service.ts:114-139 | in every interleaving of any number of addresses, an address whose own attempts do not overlap fails for the n-th time in a row, n >= 5, no earlier than (n-5) windows after the fifth |
| Incidents.GraverIsNeverSlower | apps/api/src/modules/incidents/incidents.rules.ts:10-25 | raising impact or urgency never lengthens a response or resolution time |
| IncidentLaws.PriorityMeans | apps/api/src/modules/incidents/incidents.rules.ts:10-17 | the matrix is a sum: P1 from four points of impact and urgency on, P2 at three, P3 at two, P4 below |
| IncidentLaws.DueTimesOf | apps/api/src/modules/incidents/incidents.rules.ts:19-25 | in every reachable state the due times are those of the present impact and urgency, in milliseconds after the report |
| IncidentLaws.AllowedMeans | apps/api/src/modules/incidents/incidents.rules.ts:27-40 | the transitions told backwards: from where each status can be reached |
| IncidentLaws.NeedsMean | apps/api/src/modules/incidents/incidents.rules.ts:42-75 | field by field, the statuses that ask for it |
| Incidents.MissingFields | apps/api/src/modules/incidents/incidents.rules.ts:58-75 | the pushes list exactly the fields the status asks for and the incident lacks, each once, in the source's order |
| Incidents.IncidentsService.CreateIncident | apps/api/src/modules/incidents/incidents.service.ts:280-361 | a new incident has its due times, its open assignment when assigned, and a first log entry |
| Incidents.IncidentsService.UpdateIncident | apps/api/src/modules/incidents/incidents.service.ts:362-444 | an unfinished incident takes the changes; a changed assignee releases open assignments and opens one for a new assignee; the trigger stamps the department of the assignee, or none |
| Incidents.IncidentsService.UpdateUser | apps/api/prisma/migrations/202608250002_incident_assignee_integrity/migration.sql:147-175 | a user with an active incident keeps the department and goes on responding; any other user can be written |
| Incidents.IncidentsService.UpdateDepartment | apps/api/prisma/migrations/202608250002_incident_assignee_integrity/migration.sql:177-195 | a department with an active incident goes on responding; any other can be written |
| Incidents.IncidentsService.ChangeIncidentStatus | apps/api/src/modules/incidents/incidents.service.ts:445-508 | a change commits exactly along an allowed edge with no missing field, by the assignee or an administrator; a refusal for missing fields names exactly those |
| Incidents.IncidentsService.AddIncidentActivity | apps/api/src/modules/incidents/incidents.service.ts:509-529 | a note is appended to the log and nothing else changes |
| Incidents.IncidentsService.RemoveIncident | apps/api/src/modules/incidents/incidents.service.ts:537-579 | the incident goes with its log and assignments |
| IncidentLaws.CreatedMeans | apps/api/src/modules/incidents/incidents.service.ts:280-361 | told by fields: which incidents are accepted and what they start with |
| IncidentLaws.UpdatedMeans | apps/api/src/modules/incidents/incidents.service.ts:362-444 | told by fields: which updates are accepted; a change of assignee releases the open assignment, opens one in the department of the new assignee and is logged as ASSIGNED; any other update leaves the assignments alone |
| IncidentLaws.TextMeans | apps/api/src/modules/incidents/incidents.service.ts:374-393 | a named text is stored trimmed, or taken away when it is null or blank; the others stay |
| IncidentLaws.MovedMeans | apps/api/src/modules/incidents/incidents.service.ts:445-508 | told by fields: who can change a status to which, and which milestone and which assignments this writes |
| IncidentLaws.ReleasedMeans | apps/api/src/modules/incidents/incidents.service.ts:400-485 | releasing sets the release time of open assignments and accepting the acceptance time of open ones not yet accepted, and nothing else |
| IncidentLaws.OthersMean | apps/api/prisma/migrations/202608250002_incident_assignee_integrity/migration.sql:147-195 | told by fields: which users and departments other services may write, and what notes and removals leave |
| IncidentRuns.LedgerAfterUpdate | apps/api/src/modules/incidents/incidents.service.ts:394-414 | an update keeps exactly one open assignment, naming the assignee, exactly when there is one |
| IncidentRuns.LedgerAfterMove | apps/api/src/modules/incidents/incidents.service.ts:474-485 | a status change keeps the ledger, and finishing an incident closes it |
| IncidentRuns.PerformKeepsInv | apps/api/src/modules/incidents/incidents.service.ts:280-529 | every step keeps ledger, log, due times, milestones and closed contents of every incident |
| IncidentRuns.ReachableStates | apps/api/src/modules/incidents/incidents.service.ts:280-529 | in every reachable state: one open assignment exactly when assigned and unfinished, log replay along allowed edges gives the status, due times equal reportedAt plus the times of impact and urgency, a closed incident has all eight fields, and a department is set exactly when an assignee is |
| IncidentLaws.HistoryOf | apps/api/src/modules/incidents/incidents.service.ts:280-529 | in every reachable state each status change in the log follows an edge of the workflow, a closed incident has an assignee and all seven texts, and an unassigned or finished one has no open assignment |
| IncidentRuns.FinishedIsFrozen | apps/api/src/modules/incidents/incidents.service.ts:367-368 | a closed or cancelled incident never changes again in any run, but for its closing time and a log that only grows |
| IncidentRuns.ClosingTimeChangesIff | apps/api/src/modules/incidents/incidents.service.ts:445-508 | a step changes the closing time of a finished incident exactly when it sets the same status again, by someone allowed to, at another time |
| IncidentRuns.FinishedIsSameIff | apps/api/src/modules/incidents/incidents.service.ts:362-508 | a finished incident stays the same throughout a run, apart from its log, exactly when no step of the run finishes it again |
| IncidentRuns.ClosingAgainRewritesTheTime | apps/api/src/modules/incidents/incidents.rules.ts:37-40 | counterexample to full freezing: closing a closed incident again is allowed and rewrites closedAt, for every closed incident |
| IncidentRuns.UpdateMayBlank | apps/api/src/modules/incidents/incidents.service.ts:374-393 | an update can blank a required text without a status change; every status that needs the text is then refused until it is back |
| IncidentStaff.AgreementIff | apps/api/src/modules/incidents/incidents.service.ts:372-376 | when the department of an incident is that of its open assignment after a step: it was, or the step opens a new assignment or closes the last, or names an assignee anew whose department is the one of the assignment |
| IncidentStaff.AgreesAlongIff | apps/api/src/modules/incidents/incidents.service.ts:372-376 | they agree throughout a run exactly when the incident is never assigned anew to an assignee who has moved since the assignment was opened |
| IncidentStaff.ReachableStaff | apps/api/prisma/migrations/202608250002_incident_assignee_integrity/migration.sql:88-195 | in every reachable state the assignee of an active incident that was never resolved responds, and belongs to the department the incident and its open assignment name |
| IncidentStaff.OnlyResolvedDrift | apps/api/src/modules/incidents/incidents.service.ts:372-376 | so the two departments can come apart only after a resolution |
| IncidentStaff.DriftIsReachable | apps/api/src/modules/incidents/incidents.service.ts:372-376 | and they do: a run from the empty table for every responder and every second team |
| IncidentOverlap.FreshWriteIsAtomic | apps/api/src/modules/incidents/incidents.service.ts:362-507 | a request that writes an incident as it read it is one atomic step |
| IncidentOverlap.LateMoveMeans | apps/api/src/modules/incidents/incidents.service.ts:445-507 | what a status change writes over an incident that others have changed since it was read |
| IncidentOverlap.LateWriteIff | apps/api/prisma/migrations/202608250002_incident_assignee_integrity/migration.sql:88-145 | which late writes the triggers take: an update whose assignee responds by then, and, when newly assigned, still belongs to the department that was read |
| IncidentOverlap.LateUpdateMeans | apps/api/src/modules/incidents/incidents.service.ts:362-444 | what an update writes over such an incident: the named fields, and the priority of what was read |
| IncidentOverlap.UpdateOkIff | apps/api/src/modules/incidents/incidents.service.ts:372-444 | which updates on a stale read break what holds of an incident: a priority from changed inputs, an assignee moved without the assignment, an assignment opened on a finished incident, a closed incident that loses a field |
| IncidentOverlap.MoveOkIff | apps/api/src/modules/incidents/incidents.service.ts:445-507 | which status changes do: those of an incident whose status has changed since, and a closing with a field blanked since |
| IncidentOverlap.SoundAlongIff | apps/api/src/modules/incidents/incidents.service.ts:362-507 | over every interleaving all incidents stay sound throughout exactly when no such write comes |
| IncidentOverlap.ClosedIsReopened | apps/api/src/modules/incidents/incidents.service.ts:445-507 | counterexample interleaving: an incident closed between the check and the write of its reopening goes on |
| IncidentOverlap.PriorityIsLost | apps/api/src/modules/incidents/incidents.service.ts:366-373 | counterexample interleaving: two updates raise impact and urgency, and the priority stays P3 instead of P1 |
| IncidentStats.FindRange | apps/api/src/modules/incidents/incidents.service.ts:79-100 | the local date arithmetic finds the Monday, first of the month or first of January around the reference and the start of the next period |
| IncidentStats.RangeContainsIff | apps/api/src/modules/incidents/incidents.service.ts:79-100 | the half-open period contains its reference, for months and years exactly outside the years 0 to 99, which the Date constructor remaps |
| IncidentStatsLaws.WeekMeans | apps/api/src/modules/incidents/incidents.service.ts:79-100 | a week holds its reference, starts at a local midnight a multiple of seven days from Monday, 5 January 1970, and lasts 604 800 seconds |
| IncidentStatsLaws.MonthMeans | apps/api/src/modules/incidents/incidents.service.ts:79-100 | a month lasts from the midnight of its 1st to that of the next month's 1st, outside the years 0 to 99 |
| IncidentStatsLaws.YearMeans | apps/api/src/modules/incidents/incidents.service.ts:79-100 | a year from 1 January to 1 January, outside the years -1 to 99 |
| IncidentStats.BucketsPartitionIff | apps/api/src/modules/incidents/incidents.service.ts:239-253 | the buckets of a week, month or year start where the period starts, meet, grow and end where it ends; for a year exactly unless it is -1 or 99 |
| IncidentStatsLaws.BucketsMean | apps/api/src/modules/incidents/incidents.service.ts:239-253 | seven days, the days of the month, or twelve months starting on their 1st |
| IncidentStats.OneBucket | apps/api/src/modules/incidents/incidents.service.ts:245-256 | every moment of the period lies in one bucket and in no other |
| IncidentStats.BucketsReachEndIff | apps/api/src/modules/incidents/incidents.service.ts:239-253 | the last bucket reaches the end of the period exactly unless it is the year -1, whose end is 1900 |
| IncidentStats.Trend | apps/api/src/modules/incidents/incidents.service.ts:245-258 | each bucket counts its rows; the counts add up to all rows exactly when all lie before the end of the last bucket, which holds for every period but the year -1 |
| IncidentStatsLaws.CountMeans | apps/api/src/modules/incidents/incidents.service.ts:245-258 | a bucket counts the rows with a time in its half-open span |
| IncidentStatsLaws.TrendMeans | apps/api/src/modules/incidents/incidents.service.ts:239-258 | each number of a trend is that of the rows reported in its bucket |
| IncidentStatsLaws.WithinMeans | apps/api/src/modules/incidents/incidents.service.ts:196-215 | the rows of a period are all rows reported in it, each as often as it is there |
| IncidentStatsLaws.WithinKeepsOrder | apps/api/src/modules/incidents/incidents.service.ts:196-215 | and in their order |
| IncidentStats.CountBy | apps/api/src/modules/incidents/incidents.service.ts:226-238 | one entry per label with its number of occurrences, largest first and equal counts in order of first occurrence, adding up to all rows |
| IncidentStatsLaws.GroupingMeans | apps/api/src/modules/incidents/incidents.service.ts:226-238 | one entry per label that occurs, with its number of rows; larger counts first, and of equal counts the label that comes up first in the rows |
| IncidentStats.Summarize | apps/api/src/modules/incidents/incidents.service.ts:196-278 | category, status and priority counts each add up to `total`, the number of incidents reported in the period, and so does the trend for every period but the year -1 |
| IncidentStats.LabelIsOwnDayIff | apps/api/src/modules/incidents/incidents.service.ts:255 | a daily bucket is labelled with the local day it counts exactly when local time is up to a day behind UTC, and with the day before exactly when it is up to a day ahead |
| IncidentStats.PreviousMonthIff | apps/api/src/modules/incidents/incidents.service.ts:97-99 | the previous period of a month is the previous month exactly when both months have the same length |
| AnnexA.NinetyThreeCodes | apps/api/src/modules/compliance/annex-a.ts:29-196 | the catalogue has 93 controls with pairwise different codes |
| AnnexA.CataloguedIff | apps/api/src/modules/compliance/annex-a.ts:200-204 | a code is accepted exactly when it numbers a control of one of the four themes (37, 8, 14 and 34 controls) |
| ComplianceLaws.CataloguedMeans | apps/api/src/modules/compliance/annex-a.ts:29-204 | the accepted codes as texts: A.5.1 to A.5.37, A.6.1 to A.6.8, A.7.1 to A.7.14 and A.8.1 to A.8.34 |
| Soa.ComplianceService.CreateSoaVersion | apps/api/src/modules/compliance/compliance.service.ts:177-212 | a version with a free trimmed name starts as a draft, empty or with a copy of the source's entries |
| Soa.ComplianceService.UpsertSoaEntry | apps/api/src/modules/compliance/compliance.service.ts:214-233 | an entry is written exactly for a catalogue code of a draft version |
| Soa.ComplianceService.IssueSoaVersion | apps/api/src/modules/compliance/compliance.service.ts:235-271 | a draft is issued exactly when all 93 controls have entries, superseding the version in force; a refusal names exactly the missing controls |
| ComplianceLaws.CreatedVersion | apps/api/src/modules/compliance/compliance.service.ts:177-212 | told by fields: which names are free, and that a new draft has the entries of its source |
| ComplianceLaws.WrittenEntry | apps/api/src/modules/compliance/compliance.service.ts:214-233 | told by fields: an entry is written into a draft under a catalogue code, and nothing else changes |
| ComplianceLaws.IssuedVersion | apps/api/src/modules/compliance/compliance.service.ts:235-271 | told by fields: a draft with an entry for every code comes into force, whatever was in force is superseded, and nothing else changes |
| Soa.PerformKeepsInv | apps/api/src/modules/compliance/compliance.service.ts:177-271 | every step keeps one version in force, unique names, catalogue codes only, and completeness of issued versions |
| Soa.ReachableStates | apps/api/src/modules/compliance/compliance.service.ts:177-271 | in every reachable state at most one version is ISSUED, every ISSUED or SUPERSEDED one has entries for exactly the 93 controls, and no two have the same name |
| Soa.IssuedIsFrozen | apps/api/src/modules/compliance/compliance.service.ts:219-221 | an issued version is never edited and never a draft again, and a superseded one never comes back, in any run |
| Soa.OneStaysInForce | apps/api/src/modules/compliance/compliance.service.ts:250-263 | once a version has been issued, one is in force in every later state |
| Soa.CloneCanBeIssued | apps/api/src/modules/compliance/compliance.service.ts:182-204 | a clone of the version in force can be issued at once and takes its place with the same entries |
| SoaOverlap.EveryInterleaving | apps/api/src/modules/compliance/compliance.service.ts:177-271 | however requests overlap between check and write, at most one version is ISSUED, every ISSUED or SUPERSEDED one has entries for exactly the 93 controls, and no two have the same name |
| SoaOverlap.FrozenIff | apps/api/src/modules/compliance/compliance.service.ts:214-271 | over every interleaving a version past the draft is frozen exactly when no write comes that found it a draft and edits it or issues it again |
| SoaOverlap.SupersededComesBack | apps/api/src/modules/compliance/compliance.service.ts:235-271 | counterexample interleaving: a superseded version is back in force |
| SoaOverlap.IssuedIsEdited | apps/api/src/modules/compliance/compliance.service.ts:214-233 | counterexample interleaving: an entry of a version in force is changed |
| Documents.ComplianceService.CreateDocument | apps/api/src/modules/compliance/compliance.service.ts:309-340 | a draft is stored exactly with known control codes, a free upper-cased code, and a predecessor nobody else replaces |
| Documents.ComplianceService.UpdateDocument | apps/api/src/modules/compliance/compliance.service.ts:342-377 | drafts and issued documents can be edited, others cannot |
| Documents.ComplianceService.IssueDocument | apps/api/src/modules/compliance/compliance.service.ts:383-416 | a draft with a file comes into force and its direct predecessor is superseded, in one step |
| Documents.ComplianceService.WithdrawDocument | apps/api/src/modules/compliance/compliance.service.ts:418-435 | any document not yet withdrawn can be withdrawn |
| Documents.ComplianceService.AttachFile | apps/api/src/modules/compliance/compliance.service.ts:441-468 | files are attached to drafts and issued documents only |
| Documents.ComplianceService.DetachFile | apps/api/src/modules/compliance/compliance.service.ts:481-499 | files are removed from drafts only |
| ComplianceLaws.CreatedDocument | apps/api/src/modules/compliance/compliance.service.ts:309-340 | told by fields: which documents are accepted, and that the code is stored trimmed and in upper case |
| ComplianceLaws.UpdatedDocument | apps/api/src/modules/compliance/compliance.service.ts:342-377 | told by fields: which documents can be edited, and that code, status, predecessor and age stay |
| ComplianceLaws.IssuedDocument | apps/api/src/modules/compliance/compliance.service.ts:383-416 | told by fields: a draft with a file comes into force, the document it names is superseded whatever it was, and nothing else changes |
| ComplianceLaws.WithdrawnDocument | apps/api/src/modules/compliance/compliance.service.ts:418-435 | only the status of the one document is written |
| ComplianceLaws.FilesMean | apps/api/src/modules/compliance/compliance.service.ts:441-499 | to which documents a file can be attached, and from which it can be removed |
| Documents.PerformKeepsInv | apps/api/src/modules/compliance/compliance.service.ts:309-499 | every step keeps: issued documents have a file, the predecessor of one in force is over, chains are acyclic and do not branch |
| Documents.ReachableStates | apps/api/src/modules/compliance/compliance.service.ts:383-416 | in every reachable state an ISSUED document has a file and the document it directly supersedes is not in force |
| Documents.IssuedIsFinal | apps/api/src/modules/compliance/compliance.service.ts:383-499 | a document once in force is never a draft again, never comes back in force, and keeps every file it had |
| Documents.IssueKeepsOneInForceIff | apps/api/src/modules/compliance/compliance.service.ts:391-396 | issuing keeps one document of every chain in force exactly when nothing else on the chain but the direct predecessor is in force |
| Documents.OtherStepsKeepOneInForce | apps/api/src/modules/compliance/compliance.service.ts:309-499 | every step but issuing keeps one document of every chain in force |
| Documents.RunKeepsOneInForceIff | apps/api/src/modules/compliance/compliance.service.ts:309-499 | a run keeps one document of every chain in force in each of its states exactly when it issues on clear chains only |
| Documents.TwoInForce | apps/api/src/modules/compliance/compliance.service.ts:391-396 | counterexample for longer chains: replacing a document in force by a draft and that draft by another, then issuing only the last, leaves both ends in force |
| Documents.WithdrawnStaysIff | apps/api/src/modules/compliance/compliance.service.ts:392-396 | a step leaves a withdrawn document withdrawn unless it issues its successor, which makes it a superseded one |
| Documents.WithdrawalLastsIff | apps/api/src/modules/compliance/compliance.service.ts:383-435 | a withdrawal lasts through a run exactly when the successor of the document is never issued in it |
| DocumentOverlap.FreshWriteIsAtomic | apps/api/src/modules/compliance/compliance.service.ts:309-499 | a request that writes while its check still holds is one atomic step |
| DocumentOverlap.CodesStayApart | apps/api/src/modules/compliance/compliance.service.ts:309-499 | in every interleaving from the empty tables no two documents have the same code or replace the same one, and every file belongs to a document |
| DocumentOverlap.SoundAlongIff | apps/api/src/modules/compliance/compliance.service.ts:383-499 | over every interleaving each document in force has a file and its predecessor is over, throughout, exactly when no write takes the last file of one in force, issues one without files, or issues one whose successor is in force |
| DocumentOverlap.OverLastsIff | apps/api/src/modules/compliance/compliance.service.ts:383-416 | over every interleaving a document that is over stays over exactly when no request that found it a draft issues it |
| DocumentOverlap.IssuedWithoutFile | apps/api/src/modules/compliance/compliance.service.ts:388-499 | counterexample interleaving: the only file is removed between the check and the write of an issue |
| DocumentOverlap.BothInForce | apps/api/src/modules/compliance/compliance.service.ts:383-416 | counterexample interleaving: a draft is issued after its own successor, and both are in force |

## Left out

- IncidentStats.BucketsPartitionIff: is for a fixed offset from UTC; zones with daylight saving time have days of 23 and 25 hours.
- LoginLimiter.FailuresAreSpaced: is the sequential case for fewer than 10000 addresses; `LoginOverlap.FailuresAreSpaced` states it for every interleaving.
- DisposalRuns.ReachableStates: covers runs whose deletions meet the condition of `RemoveKeepsInvIff`, without which custody fails (`RemovingADraftCanBreakCustody`); `ReachableCases` covers every run.
- The administrator's direct status correction and soft delete of an asset as disposal steps: other modules may write any asset, but not the status of one that an active or completed case holds.
- `ageLabel`, `warrantyLabel`, `costOfOwnership`, average response times and the remaining summary counters: single formulas over the figures proved here.
- The proceeds of a disposal, and their DECIMAL(18,2) column, which no request validation bounds.
- Role checks, request validation, notes, audit-log rows and the display fields of every record.
- File storage, image handling, HTTP, Microsoft Graph and LDAP clients, the user interface, demo data and seeding.
- Lifecycle, inventory, renewal, risk and network modules: present only as arbitrary writes to assets within the stated limits.
