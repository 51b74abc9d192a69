# Freight audit and recovery: a model and its laws

A Dafny model of the parts of the freight auditor that hold state, loops or canonical forms, and proofs of what they
are for. `dafny verify dfyconfig.toml` checks all of it.

- **Money** (`Ledger`, `LedgerRuns`, `LedgerLaws`, `LedgerAnswers`, `LedgerStore`): findings become dispute lines,
  disputes claims, claims recoveries and settlements. Amounts are whole ten-thousandths. Each transaction is a
  function on the tables; class `Store` runs its statements on fields and is proved equal to it; the laws are about
  every run.
- **Row locks** (`DisputeLocks`): dispute creations and finding actions, interleaved statement by statement.
- **Claim aging** (`ClaimAging`, `AgingAnswers`, `LedgerAging`): scans, jobs that may be delivered again or rolled
  back, two handlers over an append-only ledger, and clocks of two precisions on two machines.
- **Reports** (`Reports`, `ReportLaws`, `ReportFigures`): one generic aggregation with the keys of the three reports.
- **Rate tables** (`Rectangles`, `Reassembly`, `JoinLaws`, `RateTableChecks`, `AxisLaws`): stitching page fragments,
  then judging the result.
- **Canonical texts** (`Texts`, `Numerals`, `JsonText`, `CanonicalJson`, `StableJson`, `JsonLaws`): strings are
  sequences of UTF-16 code units; quoting follows section 7 of RFC 8259 as `JSON.stringify` does it.
- **Proposed rules** (`ProposedCriteria`, `ProposalChecks`, `ProposalLifecycle`, `ProposalLaws`, `ProposalAnswers`,
  `ProposalStore`): the canonical form of predicates, and the way from a proposal to an active rule.
- **Evaluation and replay** (`FactViews`, `ViewLaws`, `FactBundles`, `BundleLaws`, `InvoiceEvaluation`, `ScoreLaws`,
  `Replay`, `ReplayAnswers`, `ReplayStore`).
- **Extraction** (`ExtractionPaths`, `Abstention`, `ExtractionLaws`, `ClarifyingQuestions`, `ExtractionStore`).
- **Pagination** (`Pagination`, `PageLaws`) and **exports** (`Exports`).
- **Shared** (`Sorting`, `Sums`): stable sorting as a canonical form; sums over sets of rows.

Operations are functions or methods with the branches of the source. The modules named `...Laws`, `...Answers` and
`...Figures` say what they amount to in terms of rows, cells, charges and events alone: which answer under exactly
which condition, and all that is written.

The rule interpreter, SHA-256, `localeCompare`, Unicode folding and trimming, and decimal reading are parameters: any
pure function, any injective digest where a theorem says so, any total order. Clocks, ids of new rows and failures of
calls are inputs of the steps.

## Model

| member | source | states |
|---|---|---|
| `LedgerLaws.NoDollarClaimedTwice` | src/modules/claims/detect-duplicate-claimed-finding.ts:31-55 | Over every run of findings, actions, disputes, claims, payments and settlements: no finding lies under two claimed disputes, and for any choice of tenants and currencies the claims together ask for exactly the sum of the distinct findings under them |
| `LedgerLaws.RecoveryLaws` | src/modules/claims/validate-claim-resolution.ts:59-95 | From the moment a claim exists its amount is fixed, recoveries never exceed it and carry its currency, a terminal status never changes, and `recovered` means recovered in full from then on |
| `LedgerLaws.DerivedStatusAgrees` | src/modules/claims/derive-claim-status.ts:55-73 | In every reachable state the status derived from the terminal audit events of a claim, listed in any order, is the stored one |
| `LedgerLaws.LatestMeaning` | src/modules/claims/derive-claim-status.ts:55-73 | The reduction finds no event exactly when none is terminal; otherwise the first among the latest terminal ones |
| `LedgerLaws.FullRecoverySucceeds` | src/modules/claims/validate-claim-resolution.ts:82-90 | A full recovery goes through exactly for an open claim of the tenant, in its currency, with a positive payment of precisely what is missing |
| `LedgerLaws.PartialRecoverySucceeds` | src/modules/claims/record-partial-recovery.ts:66-89 | A partial recovery goes through exactly when claim, currency, positive amount and cumulative bound are right; the status of the claim is not asked |
| `LedgerLaws.CoveredClaimNeverRecovered` | src/modules/claims/validate-claim-resolution.ts:77-90 | An open claim that partial recoveries already cover can in no later state be `recovered`: the payment that would close it must be positive |
| `LedgerLaws.RepeatedCreationFails` | src/modules/disputes/validate-disputable-findings.ts:45-53 | Repeating a successful dispute creation fails with NOT_ACCEPTED and changes nothing |
| `LedgerLaws.RepeatedClaimIsFound` | src/modules/claims/create-claim-from-dispute.ts:66-67 | Repeating a successful claim creation returns the same claim with `created` false and changes nothing |
| `LedgerRuns.RunKeepsInvariant` | src/modules/disputes/create-dispute-from-findings.ts:82-103 | Every state of every run keeps the ledger invariant: lines match findings, disputes their lines, claims their disputes, recoveries their claims, terminal status and terminal audit row coincide |
| `LedgerAnswers.CreationAnswer` | src/modules/disputes/create-dispute-from-findings.ts:71-120 | A dispute is created exactly for a nonempty set of requested, own, non-undercharge findings that are all accepted, complete and of one carrier and currency; then the draft, a line and a history row for each in id order, and each status, and nothing else |
| `LedgerAnswers.CreationRefusals` | src/modules/disputes/validate-disputable-findings.ts:45-62 | Which refusal: an empty set, the reason of the first finding in id order that is not ready, several carriers, several currencies; nothing changes |
| `LedgerAnswers.ClaimAnswer` | src/modules/claims/create-claim-from-dispute.ts:63-87 | A claim is opened exactly for an own, accepted dispute with a positive amount, a currency and no claim that shares no finding with another claimed dispute; an existing claim is returned; otherwise nothing changes |
| `LedgerAnswers.ClaimRefusals` | src/modules/claims/validate-claimable-dispute.ts:42-55 | Which refusal under which condition, in order, and which findings a duplicate names |
| `LedgerAnswers.ClaimsRestOnAcceptance` | src/modules/claims/validate-claimable-dispute.ts:43 | Over every run the dispute of every claim is accepted, or closed since; a partially accepted amount is at most what was claimed and only a partial dispute, or one closed since, has one |
| `LedgerAnswers.ResponseAnswer` | src/modules/disputes/resolve-dispute.ts:75-166 | Each response moves the dispute along exactly one listed transition, records a partially accepted amount, fails if that exceeds the claim, and otherwise finds nothing |
| `LedgerAnswers.DisputesGoForward` | src/modules/disputes/resolve-dispute.ts:18-20 | Over every run a dispute goes draft, sent, resolved, closed, never back, and once resolved is only ever closed |
| `LedgerAnswers.PaymentAnswer` | src/modules/claims/record-partial-recovery.ts:66-123 | A partial recovery is refused for the first of the listed reasons, or writes one event; its export is enqueued exactly if that did not fail; `isFinal` means recovered in full |
| `LedgerAnswers.RecoveredIsSum` | src/modules/claims/record-partial-recovery.ts:76-80 | What was recovered on a claim is the sum of the amounts of its events |
| `LedgerAnswers.SettledExactly` | src/modules/claims/validate-claim-resolution.ts:59-95 | A settlement goes through exactly for an open own claim: a denial without amount, a full recovery of precisely what is missing, a write-off of nothing or of less |
| `LedgerAnswers.SettlementRefusals` | src/modules/claims/validate-claim-resolution.ts:66-93 | Which refusal under which condition, in order; nothing changes |
| `LedgerAnswers.SettlementEffect` | src/modules/claims/resolve-claim.ts:70-103 | All that a settlement writes: event, claim status, audit row; a named own finding becomes recovered or written off with a history row, and stays as it is under a denial |
| `LedgerAnswers.StatusAnswer` | src/modules/findings/update-finding-status.ts:34-56 | The finding of the tenant gets the status and one history row from old to new; nothing else changes |
| `LedgerRuns.DuplicateGuardMeaning` | src/modules/claims/detect-duplicate-claimed-finding.ts:36-54 | The guard reports exactly the findings of the dispute that lie under another, claimed dispute of the tenant |
| `LedgerRuns.ValidationMeaning` | src/modules/disputes/validate-disputable-findings.ts:45-62 | Validation passes exactly when some row is no undercharge and all such rows are accepted, priced, and agree in carrier and currency |
| `LedgerRuns.SettlementPasses` | src/modules/claims/resolve-claim.ts:52-101 | Exactly when a settlement goes through; in a sound state its audit write never conflicts |
| `LedgerRuns.ResolutionPasses` | src/modules/claims/validate-claim-resolution.ts:59-95 | What a passed resolution means for amounts, status and currency, kind by kind |
| `LedgerStore.Store.CreateDisputeFromFindings` | src/modules/disputes/create-dispute-from-findings.ts:65-120 | Read, validate, insert dispute and lines, move each finding: all of `CreateDispute` or, on an error, nothing; the ledger invariant is kept |
| `LedgerStore.Store.AddLines` | src/modules/disputes/create-dispute-from-findings.ts:96-103 | One line per claimable finding, each moved to `queued_for_dispute` with its history row, and nothing else |
| `LedgerStore.Store.UpdateFindingStatus` | src/modules/findings/update-finding-status.ts:26-69 | Status and history change together; a finding of another tenant is not found and nothing changes |
| `LedgerStore.Store.RespondToDispute` | src/modules/disputes/resolve-dispute.ts:75-166 | Approve, accept, reject, partial and close as guarded updates of one row; the invariant is kept |
| `LedgerStore.Store.CreateClaimFromDispute` | src/modules/claims/create-claim-from-dispute.ts:51-108 | Existing claim first, then the two guards, then the insert; the invariant is kept |
| `LedgerStore.Store.SelectExistingClaim` | src/modules/claims/create-claim-from-dispute.ts:110-122 | Finds a claim exactly when the dispute has one |
| `LedgerStore.Store.SumRecovered` | src/modules/claims/resolve-claim.ts:62-66 | The running total over the recovery rows is the sum for that claim and tenant |
| `LedgerStore.Store.RecordRecovery` | src/modules/claims/record-partial-recovery.ts:61-124 | The recovery stays whether or not the export could be enqueued, and a failed enqueue leaves no export behind |
| `LedgerStore.Store.WriteAuditEvent` | src/modules/audit-ledger/write-audit-event.ts:63-104 | Insert, or find the same evidence under the id; anything else conflicts and changes nothing |
| `LedgerStore.Store.Resolve` | src/modules/claims/resolve-claim.ts:48-104 | Event, status, mirrored finding and audit row together, or none of them; the invariant is kept |
| `DisputeLocks.NoCycleOfWaits` | src/modules/disputes/create-dispute-from-findings.ts:71-80 | With creations and finding actions interleaved statement by statement, locking in ascending id order lets no cycle of waits arise |
| `DisputeLocks.NoDeadlock` | src/modules/disputes/create-dispute-from-findings.ts:71-80 | While any transaction is unfinished, some transaction can take a step |
| `DisputeLocks.LinesNeverOutnumberAcceptances` | src/modules/disputes/create-dispute-from-findings.ts:82-103 | The dispute lines on a finding never outnumber its moves into `accepted`; while it is accepted there is one move more |
| `DisputeLocks.CommitTellsTheStatus` | src/modules/disputes/create-dispute-from-findings.ts:96-103 | Every history row a dispute creation writes has as `from_status` the status that was replaced, `accepted` |
| `DisputeLocks.CommitWrites` | src/modules/disputes/create-dispute-from-findings.ts:89-103 | Every claimable finding a committing transaction locked is accepted until then and is written, in id order, as by a creation all at once; no other finding changes |
| `DisputeLocks.FromStatusIsTrue` | src/modules/findings/update-finding-status.ts:34-53 | Over every run: the row an action writes has as `from_status` the status when its statement began; that is the status it replaced exactly when nothing was written to the finding in between or the last write restored it |
| `DisputeLocks.NothingWritten` | src/modules/findings/update-finding-status.ts:34-53 | Nothing was written in between exactly when no commit over that finding and no other action on it lies between the two steps |
| `DisputeLocks.StaleFromStatus` | src/modules/findings/update-finding-status.ts:15-17 | A run in which an action that waited behind a dispute creation records a status the finding no longer had |
| `Reassembly.ReassembleMultipageTables` | src/modules/contracts/reassemble-multipage-tables.ts:25-53 | The loop that appends in place to the last output table computes `Reassembled`, the fold of which geometry and partition are proved |
| `Reassembly.Assembly.Append` | src/modules/contracts/reassemble-multipage-tables.ts:41-50 | Cells below the header block, moved below the rows there are, are appended with the row count, source index and page; earlier cells stay |
| `Reassembly.ReassemblyKeepsGeometry` | src/modules/contracts/reassemble-multipage-tables.ts:25-53 | Fragments in bounds and pairwise disjoint give output tables in bounds and pairwise disjoint, however many are joined |
| `Reassembly.ReassemblyPartitions` | src/modules/contracts/reassemble-multipage-tables.ts:26-53 | Each source table is in exactly one output; the pages of an output follow each other; its cells are those of its sources, once each with their original coordinates, less the header blocks of joined fragments |
| `JoinLaws.JoinedExactlyWhen` | src/modules/contracts/reassemble-multipage-tables.ts:26-40 | Tables are taken by page, then position, those without a single page last; a table shares its output with the one before exactly when its page is the next, the column counts agree and the header texts are equal and not empty |
| `JoinLaws.HeaderTextMeaning` | src/modules/contracts/reassemble-multipage-tables.ts:80-89 | The header text lists column and folded text of every cell in a header row, in reading order |
| `JoinLaws.EqualHeaders` | src/modules/contracts/reassemble-multipage-tables.ts:85-89 | Header texts are equal exactly when the header cells agree one by one in column and folded text, provided no folded text holds a bar; a header text is empty exactly without header cells |
| `JoinLaws.HeadersCollide` | src/modules/contracts/reassemble-multipage-tables.ts:88 | Two tables with one and two header cells whose header texts are equal, since one text holds a bar |
| `JoinLaws.FirstDataRowMeaning` | src/modules/contracts/reassemble-multipage-tables.ts:41-42 | The first data row is the one after the last header row: the last row with a cell marked so, else row 0 |
| `JoinLaws.CellsGoWhere` | src/modules/contracts/reassemble-multipage-tables.ts:41-72 | Every output cell is a cell of a source table, moved to below the rows of the earlier sources less its header block, with column, spans, folded content, page and provenance |
| `RateTableChecks.ValidateRateTable` | src/modules/contracts/validate-rate-table.ts:47-88 | A schema error exactly for tables the schema refuses; otherwise an issue exactly for each cell out of bounds, empty or unreadable, each overlapped coordinate, and a missing, ambiguous or non-monotonic axis |
| `RateTableChecks.Occupy` | src/modules/contracts/validate-rate-table.ts:62-70 | The two inner loops fill the occupancy map with the rectangle of the cell and report exactly the coordinates taken before |
| `RateTableChecks.BracketCandidates` | src/modules/contracts/validate-rate-table.ts:90-103 | The two loops collect every column, then every row, with two readable single cells or more, in order of position |
| `AxisLaws.AxisSays` | src/modules/contracts/validate-rate-table.ts:105-129 | An axis holds exactly the single cells of its row or column, in order; it offers a candidate exactly if two or more are readable: those, their numbers, and the words of the first text that is not a number |
| `AxisLaws.CandidatesSay` | src/modules/contracts/validate-rate-table.ts:90-103 | The candidates are exactly those of the columns and of the rows, one per axis |
| `RateTableChecks.ChoiceIsUniqueBest` | src/modules/contracts/validate-rate-table.ts:115-123 | The choice is the one candidate that strictly beats all others by header score, then length; none exactly when there is none |
| `RateTableChecks.MonotonicOverEveryPair` | src/modules/contracts/validate-rate-table.ts:131-136 | Comparing neighbours decides strict increase or decrease over every pair, for two values or more |
| `RateTableChecks.OverlapReportedExactly` | src/modules/contracts/validate-rate-table.ts:52-71 | An overlap is reported exactly when two in-bounds cells share a coordinate |
| `RateTableChecks.ApartMeaning` | src/modules/contracts/validate-rate-table.ts:62-66 | Rectangles are apart exactly when they share no coordinate |
| `RateTableChecks.ValidMeansUsable` | src/modules/contracts/validate-rate-table.ts:73-88 | Valid exactly when all cells are in bounds, filled and readable, all rectangles disjoint, one axis beats all others and its thresholds are strictly monotonic over every pair |
| `RateTableChecks.ReassembledTablesPassSchema` | src/modules/contracts/validate-rate-table.ts:5-19 | On sound fragments validation accepts every reassembled table exactly when a page can be named for every cell; otherwise its schema refuses page number 0 |
| `RateTableChecks.SoundTablesHaveNoGeometryIssues` | src/modules/contracts/validate-rate-table.ts:42-44 | On the output for sound fragments no verdict reports a cell out of bounds or an overlap |
| `CanonicalJson.CanonicalTextIsIdentity` | src/modules/audit-ledger/replay-manifest.ts:33-39 | Two JSON values have equal canonical text exactly when they are equal up to object key order, over real string quoting and number printing |
| `CanonicalJson.ReadValue` | src/modules/audit-ledger/replay-manifest.ts:33-39 | Canonical texts are self-delimiting: from a text and what follows it, both the value up to key order and the rest can be recovered |
| `CanonicalJson.UndefinedElementCollides` | src/modules/audit-ledger/replay-manifest.ts:34-35 | Outside JSON the comparison is blind: `[undefined]` is written like `[]` |
| `StableJson.StableTextMeaning` | src/modules/evaluator/snapshot.ts:17-31 | Two JSON values have one stable text exactly when they are equal up to key order, `__proto__` members apart |
| `StableJson.ProtoDoesNotShow` | src/modules/evaluator/snapshot.ts:21-30 | A `__proto__` member leaves no trace in the text |
| `StableJson.SortKeys` | src/modules/evaluator/snapshot.ts:21-31 | The loop that assigns sorted keys to a new object gives every object its keys in order, with the values rebuilt likewise and `__proto__` dropped |
| `StableJson.StableStringify` | src/modules/evaluator/snapshot.ts:17-19 | The text of the rebuilt value is the stable text |
| `Numerals.NumberTextInjective` | src/modules/audit-ledger/replay-manifest.ts:34 | The text written for a finite number determines the number |
| `JsonText.QuoteCancel` | src/modules/audit-ledger/replay-manifest.ts:34 | A quoted string can be read back from the front of any longer text |
| `JsonLaws.StringSays` | src/modules/audit-ledger/replay-manifest.ts:34 | A quoted string stands between quotes, is read back by the rules of RFC 8259, holds no control character, and is the string itself when nothing in it needs an escape |
| `JsonLaws.NumberSays` | src/modules/audit-ledger/replay-manifest.ts:34 | A number with its point from five zeros before the digits to 21 places behind their beginning is a plain decimal of its value, any other is its digits with a point and an exponent |
| `JsonLaws.ArraySays` | src/modules/audit-ledger/replay-manifest.ts:35 | The text of an array is the texts of its items in order, between brackets, with commas |
| `JsonLaws.ObjectSays` | src/modules/audit-ledger/replay-manifest.ts:36-38 | The text of an object is its members with a value, each once, in ascending order of keys by code unit (array indexes first where own properties are listed), between braces, with commas |
| `Texts.TextLeqMeaning` | src/modules/audit-ledger/replay-manifest.ts:37 | Keys are ordered by the code unit at the first place where they differ, a beginning before what it begins |
| `ProposedCriteria.CanonicalFormDecidesReordering` | src/modules/contracts/proposed-criteria.ts:159-168 | Two predicates have one canonical form exactly when they differ only by the order of `and`/`or` arguments, at any depth |
| `ProposedCriteria.CanonicalizeIsIdempotent` | src/modules/contracts/proposed-criteria.ts:159-168 | Canonicalizing twice is canonicalizing once |
| `ProposedCriteria.CanonicalFormIsReordering` | src/modules/contracts/proposed-criteria.ts:159-168 | Canonicalizing only rearranges |
| `ProposedCriteria.ReorderingKeepsShape` | src/modules/contracts/proposed-criteria.ts:146-176 | Rearranging keeps depth, boolean shape and fact keys |
| `ProposalChecks.GenerationPassesPersistence` | src/modules/contracts/proposed-criteria.ts:132-136 | Every generated criterion passes the hash and expected-input checks of persistence and keeps depth, boolean shape and fact keys |
| `ProposalChecks.GeneratedSays` | src/modules/contracts/proposed-criteria.ts:132-136 | What generation writes: the key as given, a rearrangement of the predicate, the hash of that and its facts in order |
| `ProposalChecks.CheckMeaning` | src/modules/contracts/persist-contract-rule-proposals.ts:50-54 | A criterion passes exactly with the hash of its predicate and the sorted distinct fact keys of it |
| `ProposalChecks.CheckRefusals` | src/modules/contracts/persist-contract-rule-proposals.ts:50-54 | Which check fails: the hash first, then the declared facts |
| `ProposalChecks.CollectedIsFactKeys` | src/modules/contracts/proposed-criteria.ts:170-176 | The traversal into one shared set adds exactly the fact keys of the predicate, each once |
| `ProposalChecks.CheckAll` | src/modules/contracts/persist-contract-rule-proposals.ts:49-54 | The loop passes exactly when every criterion is consistent, and otherwise stops with the error of the first that is not |
| `Pagination.BuildKeysetAnchorFrom` | src/shared/cursor-pagination.ts:88-101 | Pushes the cursor id and binds the anchor to it and to the tenant |
| `Pagination.BuildLimitOffsetClause` | src/shared/cursor-pagination.ts:118-128 | Binds limit, and offset only without a cursor, after the parameters that are there |
| `Pagination.ListClaims` | src/modules/claims/list-claims.ts:49-96 | Conditions and parameters grown in place select, whatever options are given, the window of the listing of the tenant past the anchor; with a cursor the offset is not used |
| `Pagination.StatementMeaning` | src/modules/claims/list-claims.ts:54-90 | Every placeholder names the parameter meant: the statement answers with the window of the listing for tenant, status and cursor |
| `Pagination.ListingMeaning` | src/modules/claims/list-claims.ts:54-88 | The listing holds exactly the wanted rows past the anchor, strictly by time descending, then id ascending |
| `PageLaws.ListingSays` | src/modules/claims/list-claims.ts:54-88 | The listing holds exactly the own claims in the status asked for, if one is, behind the row of the cursor, newest first and by id among equals |
| `PageLaws.PageSays` | src/shared/cursor-pagination.ts:45-55 | A page is the first rows of the listing up to the limit; the next cursor is its last row, exactly if the listing goes on |
| `Pagination.FetchPage` | src/shared/cursor-pagination.ts:45-55 | One row more than asked for decides whether there is a next cursor, the id of the last row kept |
| `Pagination.WalkEnumerates` | src/shared/cursor-pagination.ts:45-55 | Following the cursor to its end while rows come and go but no anchor is lost: rows in order, none repeated, every row present throughout exactly once |
| `Pagination.SteadyWalkEnds` | src/shared/cursor-pagination.ts:45-55 | On an unchanging table the walk ends after as many pages as the listing fills, at least one, and the pages are the listing |
| `Pagination.LostAnchorEndsTheWalk` | src/shared/cursor-pagination.ts:88-101 | A cursor yields an empty last page exactly when nothing wanted lies past its row: so whenever that row is gone or of another tenant |
| `ClaimAging.AtMostOnceAndAfterGrace` | src/modules/claims/generate-claim-escalation.ts:51-83 | Under every schedule of scans, duplicate deliveries and rolled-back attempts: one follow-up and one escalation at most per claim, each escalation at least the grace period after its follow-up by the handler clock, to the millisecond |
| `ClaimAging.GraceGuard` | src/modules/claims/generate-claim-escalation.ts:68-70 | Exactly what the guard compares: it lets an escalation through up to 999 microseconds early |
| `ClaimAging.EscalationTime` | src/modules/claims/generate-claim-escalation.ts:68-82 | Over every run: a stored escalation time is the start of the delivering transaction, and lies a grace period after the follow-up exactly when that start does; it does whenever the transaction began no earlier than the scan that sent the job |
| `ClaimAging.RecordedTimeMayBeEarly` | src/modules/claims/generate-claim-escalation.ts:68-82 | A run that stores an escalation inside the grace period: the database clock is a second behind the worker clock |
| `ClaimAging.ListedClaimIsFollowedUp` | src/modules/claims/list-claim-aging-queues.ts:28-55 | A claim the scan lists for follow-up passes the handler guards then or later that instant, and gets its event |
| `ClaimAging.ListedClaimIsEscalated` | src/modules/claims/list-claim-aging-queues.ts:62-95 | A claim the scan lists for escalation passes the handler guards, and is escalated unless it already was |
| `ClaimAging.RedeliveredFollowUp` | src/modules/claims/generate-claim-follow-up.ts:56-67 | A redelivered follow-up is recognised exactly while the deadline is the recorded one, to the millisecond; otherwise it fails on the ledger |
| `AgingAnswers.ListedExactly` | src/modules/claims/list-claim-aging-queues.ts:28-95 | Over every run a claim is listed for follow-up exactly while it is open, its deadline is reached and no follow-up is recorded; for escalation exactly while it is open and a follow-up is seven days old, escalated or not |
| `AgingAnswers.ScanAnswer` | src/modules/claims/schedule-claim-aging-jobs.ts:32-71 | A scan sends a job for every listed claim of its accounts and no other; known jobs stay as they are |
| `AgingAnswers.FollowUpAnswer` | src/modules/claims/generate-claim-follow-up.ts:46-67 | Each refusal under its condition, in order; otherwise the row is written, found, or in conflict with the recorded deadline |
| `AgingAnswers.CountSays` | src/modules/claims/schedule-claim-aging-jobs.ts:32-71 | The count of a scan is the number of listed claims over all accounts, whether or not their job was new |
| `AgingAnswers.EscalationAnswer` | src/modules/claims/generate-claim-escalation.ts:51-83 | Each refusal under its condition, in order; otherwise the row naming the follow-up is written, or is there |
| `ClaimAging.AgingStore.GenerateClaimFollowUp` | src/modules/claims/generate-claim-follow-up.ts:40-68 | Refuses an unknown, terminal or not yet due claim, in this order of errors, leaving the ledger as it was; otherwise writes the follow-up or finds it |
| `ClaimAging.AgingStore.GenerateClaimEscalation` | src/modules/claims/generate-claim-escalation.ts:44-84 | Refuses an unknown or terminal claim, one without follow-up, and one still in its grace period, leaving the ledger as it was; otherwise writes the escalation or finds it |
| `ClaimAging.AgingStore.ScheduleClaimAgingJobs` | src/modules/claims/schedule-claim-aging-jobs.ts:32-71 | The nested loops send one job per due claim of every account, known ids being left alone, and count every due claim |
| `LedgerAging.LedgerRunsAge` | src/modules/claims/resolve-claim.ts:80-101 | Every run of the money ledger is matched by a run of the aging model with the same claims, statuses and terminal rows |
| `Reports.Aggregate` | src/modules/claims/aggregate-carrier-recovery.ts:77-114 | Grouping in two maps with accumulators updated in place computes `Report`: one bucket per key in order of first use, of which the sums and gaps are proved |
| `Reports.Bucket.Accumulate` | src/modules/claims/reconcile-claim-buckets.ts:65-101 | Adds the contribution of one claim and its events to every figure |
| `Reports.GroupEvents` | src/modules/claims/aggregate-carrier-recovery.ts:81-86 | Grouping lists for each claim exactly its events, in order |
| `ReportLaws.BucketGap` | src/modules/claims/reconcile-claim-buckets.ts:65-118 | For arbitrary rows: the gap of a bucket is what its claims marked `recovered` lack, and it reconciles exactly when they lack nothing together |
| `ReportFigures.ReportSays` | src/modules/claims/reconcile-claim-buckets.ts:65-113 | One bucket per key, one for every claim, labelled after a claim in it; claimed, recovered, outstanding, written off, denied and the two odd recoveries are each the sum of just that over the claims filed there and their events |
| `ReportFigures.CarrierKeysTell` | src/modules/claims/aggregate-carrier-recovery.ts:94-102 | Two claims with proper currencies share a carrier bucket exactly when currency and carrier agree, a missing carrier being filed with one named by a space |
| `ReportFigures.AccountKeysTell` | src/modules/claims/aggregate-cross-account-portfolio.ts:61-101 | Two claims with proper currencies share an account bucket exactly when currency and account agree |
| `ReportLaws.ReportsAgree` | src/modules/claims/reconcile-portfolio-totals.ts:51-87 | The buckets of any report whose keys end in the currency, summed per currency, are the portfolio figures field by field |
| `ReportLaws.CarrierReportAgrees` | src/modules/claims/aggregate-carrier-recovery.ts:94-107 | The carrier report summed per currency is the portfolio report |
| `ReportLaws.CrossAccountReportAgrees` | src/modules/claims/aggregate-cross-account-portfolio.ts:61-101 | The cross-account report summed per currency is the portfolio report |
| `ReportLaws.ReachableReportsReconcile` | src/modules/claims/reconcile-claim-buckets.ts:115-118 | In every state of every ledger run every bucket of every report reconciles |
| `ReportLaws.PortfolioKeysCollide` | src/modules/claims/reconcile-portfolio-totals.ts:67-75 | The portfolio keys of two currencies coincide exactly when they are equal or one is missing and the other a single space |
| `InvoiceEvaluation.EvaluateInvoice` | src/modules/evaluator/evaluate-invoice.ts:71-160 | The two loops give: rejection with all failures and no findings, or no failures and a finding and a count for each scoring criterion, in evaluation order |
| `InvoiceEvaluation.MoneyVarianceDelta` | src/modules/evaluator/evaluate-invoice.ts:180-190 | The walk down `require` nodes ends at the bottom comparison and takes its money difference, if it is one |
| `InvoiceEvaluation.RejectedExactlyWhenBlocked` | src/modules/evaluator/evaluate-invoice.ts:84-107 | An invoice is rejected exactly when some gate, wherever in the rubric, fails or is unassessable; all such gates are listed |
| `InvoiceEvaluation.FailuresListAll` | src/modules/evaluator/evaluate-invoice.ts:88-102 | The failures are those of the blocking gates, one each, in order |
| `InvoiceEvaluation.ScoredAddsUp` | src/modules/evaluator/evaluate-invoice.ts:109-160 | Otherwise the three counts sum to the scoring criteria, each has its finding, and overcharge less undercharge is the signed sum of the variances |
| `ScoreLaws.ScoredSays` | src/modules/evaluator/evaluate-invoice.ts:109-159 | One finding per scoring criterion in evaluation order: conformed, variance or not assessed exactly for the verdicts pass, fail, unassessable; variance, currency and direction are those of the money comparison under the `require` nodes exactly for a fail; the counts are those of the verdicts and the totals those of the variances above and below zero |
| `ScoreLaws.RejectedSays` | src/modules/evaluator/evaluate-invoice.ts:88-107 | One failure per gate that did not pass, in evaluation order, with its key, description, citation, evaluated tree, and whether it was unassessable |
| `InvoiceEvaluation.RubricOrderDoesNotMatter` | src/modules/evaluator/evaluate-invoice.ts:162-166 | Permuting criteria with distinct keys changes the rubric hash and nothing else |
| `FactBundles.FindCoverageMarkers` | src/modules/evaluator/fact-bundle.ts:30-49 | The loop pushes the markers of every charge in order, of which `MarkersMeaning` says what they mean |
| `FactBundles.MarkersMeaning` | src/modules/evaluator/fact-bundle.ts:30-49 | A charge carries a marker exactly when the gap is there, and a marker names only fields the charge lacks |
| `FactBundles.BuildFactBundle` | src/modules/evaluator/fact-bundle.ts:57-164 | The assignments and the loop over external values give the bundle as a value; what is `undefined` is absent |
| `FactBundles.CurrencyGuard` | src/modules/evaluator/fact-bundle.ts:156-160 | The guard of rate comparisons is present exactly when both currencies are stated and agree, and then `true`; no external value can take its key |
| `BundleLaws.TotalsAndContract` | src/modules/evaluator/fact-bundle.ts:58-83 | When the declared total, the line sum, the duplicate flag and the reference match are there, and what they are |
| `BundleLaws.ChargeFacts` | src/modules/evaluator/fact-bundle.ts:60-81 | The facts about all charges: stated currencies and amounts, counts, quarantine, fuel, and the number of coverage markers |
| `BundleLaws.RateBasisFact` | src/modules/evaluator/fact-bundle.ts:64-69 | Whether rate times basis gives the amounts is there exactly if some charge names a rate or basis and all that do name both and an amount; and what it is then |
| `BundleLaws.Required210` | src/modules/evaluator/fact-bundle.ts:85-87 | The three facts an EDI 210 invoice must meet, from number, references and carrier |
| `BundleLaws.Required310` | src/modules/evaluator/fact-bundle.ts:88-92 | The five facts an EDI 310 invoice must meet, from number, references, containers, vessel and ports |
| `BundleLaws.Charges310` | src/modules/evaluator/fact-bundle.ts:93-101 | Identity and currency facts of the charges of an EDI 310 invoice; the one about a common currency is absent for others |
| `BundleLaws.LinehaulFacts` | src/modules/evaluator/fact-bundle.ts:119-146 | The billed linehaul is there exactly if a rate was asked for and billable linehaul charges exist, all in one currency: their sum in it; the contracted rate exactly if the contract gives one |
| `BundleLaws.ExternalFacts` | src/modules/evaluator/fact-bundle.ts:105-117 | An external key is there exactly if some resolution writes it, with what the last such resolution writes |
| `BundleLaws.NothingElse` | src/modules/evaluator/fact-bundle.ts:74-161 | A bundle holds no other key |
| `ViewLaws.InvoiceRead` | src/modules/evaluator/fact-bundle.ts:57-103 | An invoice written with the members of its type is read back as it was, lists by their length |
| `ViewLaws.ContractRead` | src/modules/evaluator/fact-bundle.ts:82-160 | Contract facts likewise, with external values in key order |
| `FactViews.InvoiceSame` | src/modules/evaluator/fact-bundle.ts:57-117 | Two readable values equal up to key order are the same invoice to evaluation |
| `FactViews.ContractSame` | src/modules/evaluator/fact-bundle.ts:105-161 | Two readable values equal up to key order are the same contract facts to evaluation, external values in any total order of keys |
| `FactViews.RoundTripSame` | src/modules/evaluator/persist.ts:283-285 | `JSON.parse(JSON.stringify(v))` is JSON and equal to `v` up to key order |
| `Replay.NormalisedInputsEvaluateAlike` | src/modules/evaluator/persist.ts:283-285 | Dropping undefined members, or writing `{}` for missing facts, changes neither fact bundle nor result |
| `Replay.DigestBindsManifest` | src/modules/audit-ledger/replay-manifest.ts:41-47 | With an injective digest, a manifest that meets the recorded digest has the recorded inputs, invoice and result up to key order, and the recorded run, tenant and engine |
| `Replay.SameManifestSameHash` | src/modules/audit-ledger/replay-manifest.ts:41-47 | A manifest read back with reordered keys keeps its digest |
| `Replay.ReplayDecidesEquality` | src/modules/audit-ledger/replay-audit-run.ts:62-71 | Once a row passes its checks, replay succeeds exactly when evaluating the stored inputs gives the stored result up to key order |
| `ReplayAnswers.ReplayAnswer` | src/modules/audit-ledger/replay-audit-run.ts:43-85 | Exactly when replay is not found, fails on integrity, is unavailable, or gives the result again with its digest |
| `ReplayAnswers.RecordedSays` | src/modules/evaluator/persist.ts:253-286 | What a manifest records of a run: ids, engine, sources, snapshot, the known rules and contracts asked for, once each in order with their digests, and inputs and result as stored |
| `ReplayAnswers.DigestIsIdentity` | src/modules/audit-ledger/replay-manifest.ts:9-47 | With an injective digest two manifests have one digest exactly when they agree in every field, up to key order in stored JSON |
| `ReplayAnswers.ResultSays` | src/modules/audit-ledger/replay-audit-run.ts:62-64 | The evaluated result names the parser of the invoice, the installed engine and the rubric, and carries the markers of the charges |
| `Replay.RecordedPinsHold` | src/modules/evaluator/persist.ts:253-264 | Recorded rule and contract pins hold as long as rows are only added |
| `Replay.PersistedRunsReplay` | src/modules/audit-ledger/replay-audit-run.ts:39-71 | A run persisted with the facts it was evaluated on, under the rubric replay selects and no snapshot, replays byte-identically for as long as its sources keep their digests |
| `ReplayStore.Store.PersistManifest` | src/modules/evaluator/persist.ts:266-292 | Stores for a new run what was recorded, as `jsonb` gives it back, under the digest of what was recorded; other rows stay |
| `ReplayStore.Store.VerifyPins` | src/modules/audit-ledger/replay-audit-run.ts:20-37 | The three loops accept exactly when every pin holds |
| `ReplayStore.Store.ReplayAuditRun` | src/modules/audit-ledger/replay-audit-run.ts:39-86 | Checks row, digest, pins, engine and snapshot before it compares; records a success once whatever the number of replays, never conflicts, and otherwise changes nothing |
| `ExtractionPaths.RejectDuplicates` | src/modules/contracts/contract-extraction-schema.ts:111-118 | Issues exactly the positions whose folded name occurred before |
| `ExtractionPaths.MisplacedCells` | src/modules/contracts/contract-extraction-schema.ts:63-78 | Issues exactly the cells out of bounds or over a coordinate taken before |
| `ExtractionPaths.CheckSchema` | src/modules/contracts/contract-extraction-schema.ts:91-102 | Accepts exactly the valid extractions |
| `ExtractionPaths.PathsTellPlaces` | src/modules/contracts/persist-contract-extraction.ts:83-92 | A path names one place only: field, clause, title or cell, whatever quotes and brackets a reference holds |
| `ExtractionPaths.FlattenExtraction` | src/modules/contracts/persist-contract-extraction.ts:83-92 | The pushing loops give one row per value of fields, clauses, titles and cells, sorted by path |
| `ExtractionPaths.FlattenedPathsDistinct` | src/modules/contracts/persist-contract-extraction.ts:83-92 | A valid extraction has one row per value, under pairwise distinct paths |
| `ExtractionLaws.EntriesSay` | src/modules/contracts/persist-contract-extraction.ts:83-90 | The places of an extraction are its fields, clauses, table titles, cells and ambiguous orientations, and no other |
| `ExtractionLaws.RowsInOrder` | src/modules/contracts/persist-contract-extraction.ts:91 | Rows are sorted by path |
| `Abstention.ApplyToValue` | src/modules/contracts/apply-contract-extraction-abstention.ts:85-101 | The three branches on one value and the notice they push |
| `Abstention.ApplyContractExtractionAbstention` | src/modules/contracts/apply-contract-extraction-abstention.ts:37-81 | Refused exactly when extraction, policy, a missing path or the result is invalid; otherwise the extraction rewritten in place and the sorted notices, of which the next rows say what they mean |
| `Abstention.NoticePathsDistinct` | src/modules/contracts/apply-contract-extraction-abstention.ts:43-80 | No two notices name one path |
| `Abstention.AbstentionTellsEverything` | src/modules/contracts/apply-contract-extraction-abstention.ts:43-80 | Every value of the result is an old one, grounded and confident enough, or is told by a notice; and every notice tells of a place of the result |
| `ExtractionLaws.AbstentionSays` | src/modules/contracts/apply-contract-extraction-abstention.ts:43-101 | The result and its notices, place by place and nothing else: confident values stay, abstentions stay and are noted, weak values become ambiguous and keep text, confidence and citations, missing required fields are added, ambiguous orientations asked about; each with its reason and question |
| `ExtractionLaws.RestStays` | src/modules/contracts/apply-contract-extraction-abstention.ts:46-77 | Everything but the values stays as it was; an added field has the required type |
| `ClarifyingQuestions.GenerateClarifyingQuestions` | src/modules/contracts/clarifying-questions.ts:21-37 | Refused exactly for bad notices, conflicting exactly when two differ on one path, otherwise one question per path in order |
| `ClarifyingQuestions.QuestionsFollowAbstention` | src/modules/contracts/clarifying-questions.ts:25-35 | On the output of abstention no conflict arises; questions are refused only for their number or a path that is too long |
| `ClarifyingQuestions.QuestionsSay` | src/modules/contracts/clarifying-questions.ts:28-36 | A question is asked exactly if some notice asks it: path, status, reason and text are those of the notice, and the hash is over policy version and notice |
| `ExtractionStore.Store.PersistContractExtraction` | src/modules/contracts/persist-contract-extraction.ts:24-82 | Each error exactly under its condition; a response is refused as partial exactly when other than none or all of its rows is stored, and a refusal changes nothing |
| `ExtractionStore.CountsTell` | src/modules/contracts/persist-contract-extraction.ts:66-70 | The two counts are right exactly when nothing was stored before, or precisely these rows |
| `ExtractionStore.InsertedSays` | src/modules/contracts/persist-contract-extraction.ts:44-58 | A key that was there keeps its value, a new one is of this source and response, and every row has its own value under its path |
| `ExtractionStore.PersistsWhole` | src/modules/contracts/persist-contract-extraction.ts:24-71 | On a table filled by this operation alone no partial conflict arises, the table stays so, and persisting again changes nothing |
| `ProposalLifecycle.InsertAgain` | src/db/insert-idempotent.ts:33-49 | A repeated insert finds its own row, however the table has grown, and adds nothing |
| `ProposalLaws.ActiveVersionsEarned` | src/modules/contracts/ratify-contract-rule-proposal.ts:8-35 | In every reachable state an ACTIVE version has one SHADOW predecessor of the same rule and predicate, one acceptance, one ratification, and a passed backtest on that very predicate in which every case met its expected verdict |
| `ProposalAnswers.AcceptAnswer` | src/modules/contracts/accept-contract-rule-proposal.ts:20-66 | In any reachable state an acceptance goes through exactly for an own proposal with a passed backtest of it, not accepted yet or accepted with the same evidence; what is written the first time, what is found later, and which refusal otherwise |
| `ProposalAnswers.RatifyAnswer` | src/modules/contracts/ratify-contract-rule-proposal.ts:9-34 | In any reachable state a ratification goes through exactly for an own acceptance, not ratified yet or ratified with the same evidence; what is written, found or refused |
| `ProposalAnswers.BacktestAnswer` | src/modules/contracts/backtest-contract-rule-proposals.ts:53-71 | A backtest is refused for a changed predicate, a repeated case or an unexpected fact; otherwise its row counts the cases that met and missed their expected verdict and passes exactly if none missed |
| `ProposalAnswers.RunTraced` | src/modules/contracts/accept-contract-rule-proposal.ts:30-47 | Every run keeps: one rule per proposal, of its type, and every acceptance with a passed backtest and the version made from it |
| `ProposalLaws.AcceptAgain` | src/modules/contracts/accept-contract-rule-proposal.ts:16-67 | A repeated acceptance, at any later time, finds what it made and changes nothing |
| `ProposalLaws.RatifyAgain` | src/modules/contracts/ratify-contract-rule-proposal.ts:8-35 | A repeated ratification, at any later time, finds what it made and changes nothing |
| `ProposalLaws.BacktestAgain` | src/modules/contracts/backtest-contract-rule-proposals.ts:38-91 | A repeated backtest, at any later time, changes nothing: it finds its rows exactly as long as the contract version has no further proposal, and is refused afterwards |
| `ProposalLaws.RunGrows` | src/modules/contracts/backtest-contract-rule-proposals.ts:53-84 | In every run the tables only grow |
| `ProposalStore.Store.Backtest` | src/modules/contracts/backtest-contract-rule-proposals.ts:38-91 | A backtest row and its evidence for every proposal of the contract version, each inserted or found; a failure leaves nothing behind; the lifecycle invariant is kept |
| `ProposalStore.Store.AcceptProposal` | src/modules/contracts/accept-contract-rule-proposal.ts:16-67 | Rule, SHADOW version and acceptance, each inserted or found, only on a passed backtest of this very predicate; a failure leaves nothing behind; the lifecycle invariant is kept |
| `ProposalStore.Store.RatifyProposal` | src/modules/contracts/ratify-contract-rule-proposal.ts:8-35 | ACTIVE version and ratification, each inserted or found, for an acceptance with its passed backtest; a failure leaves nothing behind; the lifecycle invariant is kept |
| `Exports.StandInExportAdapter.Export` | src/modules/exports/stand-in-export-adapter.ts:24-41 | Answers a known key as before and without effect, a new one with one effect |
| `Exports.Register` | src/modules/exports/export-adapter.ts:27-35 | Either every adapter is found under its normalized code, or the first code taken twice is reported |
| `Exports.ExportStore.HandleExportRecordJob` | src/jobs/export-record-handler.ts:59-87 | ACKNOWLEDGED is recorded once and completes, FAILED is recorded and raised, NOT_CONFIGURED completes and records nothing |
| `Exports.HandledAnswer` | src/jobs/export-record-handler.ts:64-86 | The handler exactly: nothing without an adapter; else the adapter answers, with an effect the first time only, then an unknown origin fails, an acknowledgement is recorded unless there is one, a failure is recorded and raised |
| `Exports.OriginRefusals` | src/modules/exports/record-export-acknowledgement.ts:49-72 | Which origin error, in order |
| `Exports.WorkedAnswer` | src/jobs/boss.ts:186-191 | Through the worker a delivery leaves its row exactly if it completed and nothing crashed; the adapter keeps what it did |
| `Exports.ExportsOnce` | src/jobs/export-record-handler.ts:64-86 | Under every schedule of deliveries, redeliveries, crashes and restarts: one effect per key and adapter process, one ACKNOWLEDGED row at most per client, system and key, each with the reference of an effect that was produced |
| `Exports.RestartRepeatsTheEffect` | src/modules/exports/stand-in-export-adapter.ts:11 | After a restart the next delivery of a key produces its effect again, whatever was exported before; an acknowledged job leaves the rows as they are |
| `Exports.NotConfiguredChangesNothing` | src/jobs/export-record-handler.ts:64-71 | Without an adapter a job completes and changes nothing; with one it leaves an effect |
| `Exports.NoFailedRowStays` | src/jobs/boss.ts:186-191 | Through the worker no FAILED row ever stays |
| `Exports.Redelivery` | src/jobs/export-record-handler.ts:64-86 | For the handler by itself, redelivery of a completed job changes nothing, of a failed one adds one FAILED row |
| `Exports.OneEffectForTwoClients` | src/modules/exports/stand-in-export-adapter.ts:24-41 | Two clients with one key on one system share a single effect |

## Findings

Where the code falls short of what it or its documentation says, with the exact condition.

- A `finding_status_event` may record a `from_status` the finding no longer had. update-finding-status.ts:15-17 denies
  any such gap, but the `old` CTE reads the snapshot of the statement while the update waits for the row. The record
  is true exactly when nothing was written to the finding meanwhile, or the last write restored the status
  (`FromStatusIsTrue`, `NothingWritten`); `StaleFromStatus` is a run with a false one. Rows written by dispute
  creation are always true (`CommitTellsTheStatus`).
- A stored escalation time may lie inside the grace period: the guard looks at the worker's clock and the row carries
  the transaction's start. It keeps the period exactly when that start does; a start no earlier than the scan is
  enough, and one no earlier than the handler's clock is enough to the millisecond (`EscalationTime`).
  `RecordedTimeMayBeEarly` is a run that stores one early. The guard itself, comparing milliseconds with stored
  microseconds, may be early by up to 999 microseconds (`GraceGuard`).
- A redelivered follow-up whose deadline has been changed since fails with an audit conflict instead of being
  recognised (`RedeliveredFollowUp`).
- Repeating a dispute creation fails with NOT_ACCEPTED, not with EMPTY_SET as create-dispute-from-findings.ts:42-46
  says: the rows are read by id, not by status (`RepeatedCreationFails`).
- Partial recovery does not ask for the status of the claim (`PartialRecoverySucceeds`), and a claim whose partial
  recoveries cover it can no longer be closed as `recovered`, since a full recovery must bring a positive amount
  (`FullRecoverySucceeds`, `CoveredClaimNeverRecovered`).
- The portfolio report files the currency `' '` with the missing one, and no other two currencies together
  (`PortfolioKeysCollide`); the format check on stored currencies keeps that from happening.
- export-record-handler.ts:54-57 keeps a row for every failed attempt, but the worker runs the handler in one
  transaction, so raising the failure rolls its row back: no FAILED row ever stays (`NoFailedRowStays`). The handler
  by itself does as it says (`Redelivery`).
- The stand-in adapter knows keys, not tenants: two clients with one key on one system share an effect
  (`OneEffectForTwoClients`). It forgets at a restart, after which a key produces its effect again
  (`RestartRepeatsTheEffect`).
- A cursor whose row has gone yields an empty page without a further cursor, whatever lies beyond it
  (`LostAnchorEndsTheWalk`).
- `stableStringify` loses a `__proto__` member (`ProtoDoesNotShow`); no predicate has one. `canonicalJson` writes
  `[undefined]` like `[]` (`UndefinedElementCollides`); no JSON value holds one.
- Header texts join column and text with `|` and `:`, so that a header cell holding a bar can pass for two cells, and
  tables with different headers be stitched (`HeadersCollide`). Without bars equal texts mean equal headers
  (`EqualHeaders`).
- Reassembly writes page number 0 for a cell without a region on a table without a single page, and the schema of the
  validator throws on it; the two fit together exactly when every cell has a page (`ReassembledTablesPassSchema`).

## Left out

- Replay.PersistedRunsReplay: `Recorded` takes the manifest as built, without the schema parse at persist time
  (src/modules/audit-ledger/replay-manifest.ts:41-43); a manifest the schema refuses is never stored.
- ReplayStore.Store.PersistManifest: the other rows of `persistAuditRun` (scorecard, findings, charges) are not
  modelled, and `jsonb` refusing NUL and lone surrogates is not either.
- LedgerStore.Store.CreateDisputeFromFindings: `dispute.*`, `finding.*` and `claim.created` audit rows are not
  modelled, and `numeric(18,4)` overflow is not either; only the terminal claim events are, for the derived status.
- LedgerStore.Store.RecordRecovery: transactions that overlap uncommitted are not modelled; neither this call nor
  claim creation takes a row lock, so the ledger laws are about serial runs.
- LedgerStore.Store.RespondToDispute: approval is the status update; the workflow instance and delivery command it
  schedules are not modelled.
- ProposalStore.Store.AcceptProposal: promotion events and audit rows are not modelled; ids of the append-only
  proposal tables are positions.
- ProposalChecks.CheckAll: the rest of `persistContractRuleProposals`, the lookups and inserts around the two
  re-checks.
- Reassembly.ReassembleMultipageTables: NFC and NFKC normalisation, trimming and lower-casing are arbitrary functions.
- RateTableChecks.ValidateRateTable: reading a decimal and scoring a header text are arbitrary functions; message
  texts are not modelled.
- FactBundles.BuildFactBundle: decimal reading, comparison and printing are arbitrary functions; thresholds on them
  are not computed.
- FactViews.InvoiceSame: property types are those the typed invoice declares; a stored invoice with other types is not
  read as JavaScript would.
- InvoiceEvaluation.ScoredAddsUp: amounts are exact ten-thousandths; the precision limits of the decimal library are
  not modelled.
- Pagination.FetchPage: the base64 text of a cursor and the route that refuses cursor with offset are not modelled.
- ExtractionStore.Store.PersistContractExtraction: citations and page columns of a row are not modelled, nor
  corrections.
- ClaimAging.AgingStore.ScheduleClaimAgingJobs: retention of old jobs in the queue is not modelled; a known job id
  stays known.
- Exports.ExportsOnce: export audit rows are not modelled; a restart forgets all adapters at once.
- Discovery rule proposals, which repeat the contract pipeline, HTTP routes, tenant administration, row-level
  security, document loading and the model providers are not part of this model.
