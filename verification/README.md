# APP-RIORDINI — a verified model of the reorder core

APP-RIORDINI is a purchasing assistant for a parts warehouse. It imports the
yearly sales export of a spreadsheet, keeps one sales snapshot per item,
computes for every item how many units to reorder under the active reorder
policy, and lets the buyer compose a draft order, export it one sheet per
supplier, and archive it. A separate small orders board summarises orders by
status.

This project models that core in Dafny:

| module | file | models |
|---|---|---|
| `Common` | common.dfy | string helpers (ASCII `toLowerCase`, `trim`, `split`, `includes`), `filter` and the order it keeps |
| `Domain` | domain.dfy | items, sales snapshots, policies, the joined item data, proposal lines, archived proposals |
| `Replenishment` | replenishment.dfy | `calculateReplenishment`: run rate, covers, gap, rounding, slow movers |
| `Policies` | policies.dfy | the policy list operations behind `getActivePolicy`, `updatePolicy`, `setActivePolicy` |
| `Catalog` | catalog.dfy | the item/snapshot join, code analysis and the import upsert, on values |
| `Store` | store.dfy | class `MockDatabase`: the in-memory database and its API calls |
| `Proposals` | proposal.dfy | the draft-proposal list operations and the archive record |
| `Session` | session.dfy | class `DataSession`: the shared data state and its actions |
| `ImportValidation` | import_validation.dfy | the import page: header check, row checks, duplicates, message limits |
| `CsvProposal` | csv_proposal.dfy | the proposal-from-file page: aliases, parsing, matching |
| `ProposalPage` | proposal_page.dfy | grouping by supplier, the workbook export, the approve guard |
| `Dashboard` | dashboard.dfy | search and filters, KPI counts, selection, draft generation, sort toggle |
| `ArchiveSearch` | archive_search.dfy | the archive search and row expansion |
| `QuickAnalysis` | quick_analysis.dfy | the quick code analysis page |
| `OrderSummary` | order_summary.dfy | the orders board: status cards and the order filter |

Modelling choices:

- **Quantities.** Quantities, values and thresholds are integers. Every
  `Math.ceil(rate * days)` cover is computed exactly as
  `ceil(qty365 * days / 365)`, on integers.
- **Dates.** Dates are day numbers. The current day, the new ids and the
  timestamps the program draws from the clock are parameters of the
  operations that use them.
- **Cells.** A spreadsheet cell is `Undefined`, `Null`, a number or a text,
  as the spreadsheet reader hands it over.
- **API calls.** The mock API's calls are synchronous. A call that fails
  returns `Err`. `getActivePolicy` throws inside a timer callback when no
  policy is active. That error does not reject its promise, so an awaiting
  caller never resumes. The model keeps that: `refreshData` leaves the data
  as it was, and the quick analysis page stays loading.
- **Archive failure.** Whether the archive call of the approve action
  succeeds is a parameter (`delivered`), because the mock itself never
  rejects.
- **Purchasable items.** An item's order multiple is at least 1 in every
  store state (`MockDatabase.Valid`). The import creates items with
  multiple 1 and never changes it.

Where the program's behaviour differs from what its design describes, the
model follows the code:

- `setActivePolicy` with an unknown id does not fail. It deactivates every
  policy (`Policies.ActivateUnknownId`).
- `savePolicy` stores the draft's `is_active` flag as given. Saving an active
  draft can therefore leave two active policies. Saving an inactive draft
  keeps the active policy unchanged (`Policies.SaveInactiveKeepsActive`).
- The import page lower-cases the header names but does not trim them. The
  proposal-from-file page does both.
- A lead time of 0 on an item counts as zero days, not as "use the policy
  default". Only a missing lead time takes the default.

## Model

| member | source | states |
|---|---|---|
| Replenishment.RoundOrder | services/apiService.ts:69-81 | a rounded order is never below the gap nor below the minimum order quantity |
| Replenishment.ToMultipleIsSmallestMultiple | services/apiService.ts:74-79 | TO_MULTIPLE yields the smallest multiple of the order multiple that covers both the gap and the minimum |
| Replenishment.ToMinThenMultipleMeaning | services/apiService.ts:72-73 | TO_MIN_THEN_MULTIPLE orders the larger of the minimum and the gap rounded up to the multiple, that is the smallest multiple covering the gap unless the minimum exceeds it |
| Replenishment.ToMinThenMultipleAboveMinimum | services/apiService.ts:72-73 | gap 6, minimum 7, multiple 10: the rounded gap 10 is ordered, not the minimum |
| Replenishment.StrategiesCompared | services/apiService.ts:69-81 | TO_MULTIPLE never orders less than TO_MIN_THEN_MULTIPLE, and both agree once the gap reaches the minimum |
| Replenishment.StrategiesDiverge | services/apiService.ts:72-79 | gap 2, minimum 7, multiple 5: TO_MULTIPLE orders 10, TO_MIN_THEN_MULTIPLE orders 7 |
| Replenishment.SlowMoverReason | services/apiService.ts:94-102 | the slow-mover reason always starts with the fixed prefix |
| Replenishment.BaseRecommendation | services/apiService.ts:62-81 | the recommendation before the slow-mover override is never negative |
| Replenishment.Calculate | services/apiService.ts:37-116 | the result is for the item; the quantity is never negative and is positive exactly when the item is not blocked, the gap is positive and it is no slow mover, and then covers the gap and the minimum order; a slow mover has low quantity and a stale last sale, is never reordered and carries a reason; otherwise the reason is empty |
| Replenishment.BlockedNeverReordered | services/apiService.ts:62-63 | a blocked item is never reordered |
| Replenishment.CoveredGapNeverReordered | services/apiService.ts:58-68 | when the available stock (current stock less reserved, floored at 0) reaches the target stock, nothing is ordered |
| Replenishment.ZeroLeadTimeIsNotDefaulted | services/apiService.ts:52 | a lead time of 0 gives no lead-time cover; only a missing lead time uses the policy default |
| Replenishment.NegativeQtyActsAsZero | services/apiService.ts:41 | a negative quantity sold computes what zero sold computes, except the reason text |
| Replenishment.NegativeValueActsAsZero | services/apiService.ts:42 | a negative value sold computes exactly what zero value sold computes |
| Replenishment.ZeroLeadTimeTestCase | tests/calculateReplenishment.test.ts:43-55 | the application's test case: lead-time cover 0 and recommended order 67 |
| Replenishment.TestCaseQuantities | tests/calculateReplenishment.test.ts:5-41 | in the test case the lead-time cover is 0 and the gap 67 |
| Replenishment.CoversAtOneUnitADay | services/apiService.ts:46-55 | at 365 units a year every cover (lead time, safety, 60-day forecast) equals its number of days |
| Replenishment.OneUnitADay | services/apiService.ts:46-52 | at 365 units a year, `days` days are covered by exactly `days` units |
| Replenishment.SlowMoverOverridesGap | services/apiService.ts:94-102 | a slow mover with a positive gap is flagged, given a reason, and not reordered |
| Policies.ActiveIndex | services/apiService.ts:131 | the index found is the first active policy; none is found only when no policy is active |
| Policies.IndexOfId | services/apiService.ts:159 | the index found is the first policy with the id; none only when no policy has it |
| Policies.GetActive | services/apiService.ts:128-136 | fails exactly when no policy is active; otherwise returns the first active policy of the list |
| Policies.Update | services/apiService.ts:156-168 | fails exactly when no policy has the id; otherwise replaces the first policy with that id and keeps the length |
| Policies.Activate | services/apiService.ts:170-179 | a policy is active afterwards exactly when its id is the given one; nothing else changes |
| Policies.ActivateUnknownId | services/apiService.ts:173-175 | activating an unknown id leaves no active policy |
| Policies.ActivateSingle | services/apiService.ts:173-175 | with distinct ids, activating a present id leaves exactly one active policy, the one with that id |
| Policies.NoneActiveCount | services/apiService.ts:173-175 | a list with no active flag counts zero active policies |
| Policies.SaveInactiveKeepsActive | services/apiService.ts:146-154 | saving an inactive draft changes neither the active policy nor the number of active policies |
| Policies.UpdateKeepsActiveCount | services/apiService.ts:156-168 | an update that keeps the active flag keeps the number of active policies |
| Catalog.MatchItem | services/apiService.ts:211 | finds an item with the row's (precodice, code) key, or reports that none has it |
| Catalog.SaleIndex | services/apiService.ts:249 | the index found is the first snapshot of the item; none only when the item has none |
| Catalog.SaleIndexFirst | services/apiService.ts:191 | the first snapshot of an item is the one the lookup returns |
| Catalog.SaleForUnique | services/apiService.ts:191 | with one snapshot per item, each item's lookup returns its own snapshot |
| Catalog.Paired | services/apiService.ts:190-196 | every pair is an item of the list with the snapshot its lookup returns |
| Catalog.FullData | services/apiService.ts:182-201 | one joined row per item that has a snapshot |
| Catalog.FullDataSound | services/apiService.ts:190-196 | every joined row holds an item of the list, its snapshot and the calculation for them |
| Catalog.PairedComplete | services/apiService.ts:190-196 | every item with a snapshot is paired |
| Catalog.PairedIndex | services/apiService.ts:190-196 | an item with a snapshot has a position among the pairs, which holds that item |
| Catalog.FullDataComplete | services/apiService.ts:190-196 | every item with a snapshot appears in the joined data |
| Catalog.PairedAppend | services/apiService.ts:190-196 | pairing distributes over concatenation of the item list |
| Catalog.FullDataAppend | services/apiService.ts:190-196 | the join distributes over concatenation of the item list |
| Catalog.FullDataDropsUnsold | services/apiService.ts:192 | an item without a snapshot never appears in the joined data |
| Catalog.RequestedItems | services/apiService.ts:286 | the items whose code was asked for keep a valid order multiple and distinct ids |
| Catalog.FilterKeepsUniqueIds | services/apiService.ts:286 | filtering the catalogue keeps item ids distinct |
| Catalog.PairedUniqueIds | services/apiService.ts:190-196 | with distinct item ids, no item is paired twice |
| Catalog.FullDataUniqueIds | services/apiService.ts:182-201 | with distinct item ids, no item appears twice in the join |
| Catalog.Analyze | services/apiService.ts:280-298 | no more rows than catalogue items, and with distinct item ids (as the store keeps them) no item is reported twice |
| Catalog.AnalyzeSound | services/apiService.ts:282-293 | every analysed row is a requested item with its snapshot and calculation |
| Catalog.AnalyzeFinds | services/apiService.ts:282-293 | a requested code, matched case-insensitively after trimming, whose item has a snapshot is in the analysis |
| Catalog.RequestedIndex | services/apiService.ts:286 | a requested item keeps its place among the requested items |
| Catalog.OrDefault | services/apiService.ts:219 | an absent or empty text takes the default; any other text is kept |
| Catalog.Coalesce | services/apiService.ts:234-236 | the import's new value wins when present, otherwise the old one is kept |
| Catalog.Warnings | services/apiService.ts:240-246 | an imported row has warnings exactly when its quantity or value is negative |
| Catalog.ImportRowsSnoc | services/apiService.ts:209 | importing one more row is one more import step |
| Catalog.ImportMatchedItem | services/apiService.ts:232-238 | a row whose key exists updates that item in place |
| Catalog.ImportNewItem | services/apiService.ts:213-231 | a row with a new key appends a new item |
| Catalog.SnapshotWarnings | services/apiService.ts:240-259 | a snapshot records warnings exactly when its row's figures are negative |
| Catalog.AppendItemFacts | services/apiService.ts:213-231 | appending a fresh item keeps ids and keys unique and multiples valid |
| Catalog.ReplaceItemFacts | services/apiService.ts:232-238 | replacing an item by its update keeps ids and keys unique and multiples valid |
| Catalog.UpsertItemShape | services/apiService.ts:209-238 | the item a row lands on has the row's key and a valid multiple |
| Catalog.UpsertItemFacts | services/apiService.ts:209-238 | the item upsert keeps ids and keys unique and multiples valid, and grows the id set by at most the new id |
| Catalog.TargetItemId | services/apiService.ts:209-238 | the target item is the matched one or the new id |
| Catalog.UpsertSaleFacts | services/apiService.ts:249-266 | the snapshot upsert replaces the item's snapshot or appends one, keeping one snapshot per item |
| Catalog.ImportStepFacts | services/apiService.ts:209-266 | one import step keeps the catalogue valid |
| Catalog.IdSetSnoc | services/apiService.ts:209 | the set of new ids grows by the last one |
| Catalog.ImportRowsValid | services/apiService.ts:209-268 | a whole import keeps the catalogue valid and uses only the given ids |
| Catalog.LastStep | services/apiService.ts:209-268 | an import is the import of all rows but the last, followed by the last step |
| Catalog.StepInstallsSnapshot | services/apiService.ts:249-266 | after a step, the row's item holds the row's snapshot |
| Catalog.StepKeepsSnapshot | services/apiService.ts:249-266 | a step for another key leaves an earlier snapshot in place |
| Catalog.LastRowWins | services/apiService.ts:209-268 | for repeated keys, the snapshot of the last row with the key is the one kept |
| Store.MockDatabase.constructor | services/apiService.ts:12-33 | the database starts with no items, snapshots or archive and the single default policy |
| Store.MockDatabase.GetActivePolicy | services/apiService.ts:128-136 | fails exactly when no policy is active; otherwise returns the first active policy |
| Store.MockDatabase.GetAllPolicies | services/apiService.ts:138-144 | returns the stored policies |
| Store.MockDatabase.SavePolicy | services/apiService.ts:146-154 | appends the draft with its new id and returns it; nothing else changes |
| Store.MockDatabase.UpdatePolicy | services/apiService.ts:156-168 | replaces the policy with that id, or fails with "Policy not found" and changes nothing |
| Store.MockDatabase.SetActivePolicy | services/apiService.ts:170-179 | sets the active flag exactly on the policy with the id |
| Store.MockDatabase.GetFullItemData | services/apiService.ts:182-201 | fails exactly when no policy is active; otherwise the join under the active policy |
| Store.MockDatabase.AnalyzeCodes | services/apiService.ts:280-298 | fails exactly when no policy is active; otherwise the analysis of the codes |
| Store.MockDatabase.ImportData | services/apiService.ts:203-278 | the catalogue becomes the import of all rows; the result reports every row processed; the store stays valid |
| Store.MockDatabase.ApplyRow | services/apiService.ts:209-268 | the catalogue becomes one import step applied to it |
| Store.MockDatabase.ArchiveProposal | services/apiService.ts:302-323 | the archive record of the draft is put first in the archive; nothing else changes |
| Store.MockDatabase.GetArchivedProposals | services/apiService.ts:325-331 | returns the archive, newest first |
| Proposals.GenerateLines | contexts/DataContext.tsx:60-67 | one line per item, with the item's id and its recommended quantity |
| Proposals.UpdateQty | contexts/DataContext.tsx:69-75 | lines with the id get the new quantity; every other line is unchanged |
| Proposals.UpdateQtyAbsent | contexts/DataContext.tsx:69-75 | updating an absent id changes nothing |
| Proposals.UpdateQtyLastWins | contexts/DataContext.tsx:69-75 | of two updates of the same id, the last wins |
| Proposals.RemoveLine | contexts/DataContext.tsx:77-81 | no line with the id remains; every other line remains |
| Proposals.RemoveLineAppend | contexts/DataContext.tsx:77-81 | removal distributes over concatenation |
| Proposals.RemoveLineAbsent | contexts/DataContext.tsx:77-81 | removing an absent id changes nothing |
| Proposals.ArchiveLine | services/apiService.ts:310-317 | the archived line records the line's code and its edited quantity |
| Proposals.ArchiveRecord | services/apiService.ts:305-318 | the record counts the lines, names the user and keeps every edited quantity |
| Proposals.ArchiveAfterEdit | services/apiService.ts:305-318 | a quantity edited in the draft is the quantity archived |
| Session.DataSession.constructor | contexts/DataContext.tsx:26-29 | the session starts with no data, no draft and no archive |
| Session.DataSession.RefreshData | contexts/DataContext.tsx:31-42 | the data becomes the store's join; without an active policy the call never settles and the data stays as it was |
| Session.DataSession.GenerateProposal | contexts/DataContext.tsx:60-67 | the draft becomes one line per item |
| Session.DataSession.UpdateProposalLineQty | contexts/DataContext.tsx:69-75 | the draft becomes the quantity update of the old draft |
| Session.DataSession.RemoveProposalLine | contexts/DataContext.tsx:77-81 | the draft becomes the old draft without the id's lines |
| Session.DataSession.ClearProposal | contexts/DataContext.tsx:83-85 | the draft becomes empty |
| Session.DataSession.RefreshArchivedProposals | contexts/DataContext.tsx:88-95 | the displayed archive becomes the store's |
| Session.DataSession.ApproveAndArchive | contexts/DataContext.tsx:97-101 | when the archive call succeeds the draft is archived first, then cleared, and the archive reloaded; otherwise nothing changes |
| ImportValidation.JsNumber | pages/ImportPage.tsx:135-136 | `Number()` of null is 0, of blank text is 0, of a number is the number, of undefined is NaN |
| ImportValidation.ExcelSerialToDay | pages/ImportPage.tsx:30-48 | the intended conversion: serial minus 25569 is the day number since 1970-01-01 |
| ImportValidation.ExcelDateShiftsOutsideUtc | pages/ImportPage.tsx:30-48 | the conversion as written gives the intended day at UTC and the day before under any other offset |
| ImportValidation.NewYearRecordedInItaly | pages/ImportPage.tsx:30-48 | serial 45292 (1 January 2024) is recorded as the day before at UTC+1 |
| ImportValidation.Headers | pages/ImportPage.tsx:92 | the headers are the first row's column names, lower-cased; none for an empty sheet |
| ImportValidation.MissingHeaders | pages/ImportPage.tsx:93 | the missing headers are exactly the required ones absent from the headers |
| ImportValidation.MappedRowLastColumnWins | pages/ImportPage.tsx:110-116 | a field is mapped exactly when some column names it, and the last such column's value wins |
| ImportValidation.MapRow | pages/ImportPage.tsx:110-116 | the mapping loop computes the mapped row |
| ImportValidation.Render | pages/ImportPage.tsx:95 | the missing-headers message lists the missing headers |
| ImportValidation.CheckNumber | pages/ImportPage.tsx:135-150 | NaN is an error and counts as 0; a negative number is a warning and is kept |
| ImportValidation.CheckRowFacts | pages/ImportPage.tsx:119-161 | a row is skipped with an error exactly when its code is falsy; the row number is its index plus 2 |
| ImportValidation.KeyIndex | pages/ImportPage.tsx:130 | finds the key's position list, or reports that none exists |
| ImportValidation.ScanSheet | pages/ImportPage.tsx:109-162 | the row loop computes the scan of the sheet |
| ImportValidation.CheckFigure | pages/ImportPage.tsx:138-150 | appends one figure's error or warning |
| ImportValidation.ScanOneRow | pages/ImportPage.tsx:109-162 | one loop iteration is one scan step |
| ImportValidation.DuplicateErrors | pages/ImportPage.tsx:164-170 | at most one duplicate message per key |
| ImportValidation.AppendDuplicateErrors | pages/ImportPage.tsx:164-170 | the loop appends the duplicate messages in key order |
| ImportValidation.Limit | pages/ImportPage.tsx:172-178 | up to 10 messages are shown as they are; beyond that, the first 10 and a count of the rest |
| ImportValidation.Validate | pages/ImportPage.tsx:92-190 | fails on missing headers or on any error; otherwise the rows are kept, with warnings exactly when there are warnings; the page shows the row and duplicate errors, or the warnings, capped at ten plus a count of the rest |
| ImportValidation.ParseAndValidate | pages/ImportPage.tsx:73-190 | the page's handler computes the validation |
| ImportValidation.EmptySheetFails | pages/ImportPage.tsx:92-98 | an empty sheet fails with every required header missing |
| ImportValidation.MissingCodeRowSkipped | pages/ImportPage.tsx:121-124 | a row without code adds one error and nothing else |
| ImportValidation.AddPositionFacts | pages/ImportPage.tsx:130-133 | recording a row number keeps one list per key and appends to the key's list |
| ImportValidation.KeyIndexUnique | pages/ImportPage.tsx:130 | with one list per key, the lookup returns the key's list |
| ImportValidation.PositionsStep | pages/ImportPage.tsx:121-133 | a row with a code appends its number to its key's list; a row without one changes nothing |
| ImportValidation.TracksStep | pages/ImportPage.tsx:121-133 | recording the new row number under its key, or nothing for a row without code, keeps every key's list exact |
| ImportValidation.LastRow | pages/ImportPage.tsx:119-133 | the last row with a code adds its number under its key to both the loop's lists and the key's row numbers; without a code it adds nothing |
| ImportValidation.PositionsExact | pages/ImportPage.tsx:126-133 | each key's position list holds exactly the row numbers of the rows with that key, in order |
| ImportValidation.DuplicateReportedOnce | pages/ImportPage.tsx:164-170 | a key on several rows is reported with all its rows, and no message is repeated |
| ImportValidation.SingleRowNotReported | pages/ImportPage.tsx:164-170 | a key on one row is never reported as duplicate |
| ImportValidation.DuplicateErrorsHas | pages/ImportPage.tsx:164-170 | every list longer than one gives a message |
| ImportValidation.DuplicateErrorsFrom | pages/ImportPage.tsx:164-170 | every message comes from a list longer than one |
| ImportValidation.DuplicateErrorsDistinct | pages/ImportPage.tsx:164-170 | with one list per key the messages are distinct |
| CsvProposal.CsvHeaders | pages/CsvProposalPage.tsx:56 | the headers are the first row's column names, lower-cased and trimmed |
| CsvProposal.RowKeys | pages/CsvProposalPage.tsx:75 | each column name paired with its normalised form |
| CsvProposal.FirstColumn | pages/CsvProposalPage.tsx:77 | the first column whose normalised name is the alias, or none |
| CsvProposal.KeyForAliases | pages/CsvProposalPage.tsx:74-81 | the column of the first alias that is present; none exactly when no alias is present |
| CsvProposal.FindKeyByAliases | pages/CsvProposalPage.tsx:74-81 | the alias loop computes that column |
| CsvProposal.ParseRows | pages/CsvProposalPage.tsx:83-91 | the parsed rows are exactly the non-empty parsed sheet rows, none dropped, in file order |
| CsvProposal.NullCodeKept | pages/CsvProposalPage.tsx:88-91 | a null code cell becomes the text "null" and the row is kept |
| CsvProposal.TrimNull | pages/CsvProposalPage.tsx:89 | trimming "null" keeps it |
| CsvProposal.MapOfHas | pages/CsvProposalPage.tsx:102-106 | a key is in the map exactly when some pair has it |
| CsvProposal.MapOfLastWins | pages/CsvProposalPage.tsx:102-106 | the last pair with a key gives its value |
| CsvProposal.Keyed | pages/CsvProposalPage.tsx:103-106 | each item paired with its trimmed (precodice, code) key |
| CsvProposal.ItemIndexHas | pages/CsvProposalPage.tsx:102-106 | a key is indexed exactly when some item has it |
| CsvProposal.ItemIndexLastWins | pages/CsvProposalPage.tsx:102-106 | the last item with a key is the one indexed |
| CsvProposal.BuildIndex | pages/CsvProposalPage.tsx:102-106 | the loop builds that index |
| CsvProposal.MatchRows | pages/CsvProposalPage.tsx:108-119 | the loop computes the found items and the rows not found |
| CsvProposal.FilterSnoc | pages/CsvProposalPage.tsx:111-119 | filtering one more row appends it when it passes |
| CsvProposal.NotFoundIsFilter | pages/CsvProposalPage.tsx:111-119 | the rows not found are exactly the rows without an indexed key, in order |
| CsvProposal.FoundIsMatched | pages/CsvProposalPage.tsx:111-119 | the found items are the indexed items of the matched rows, in order |
| CsvProposal.MatchPartition | pages/CsvProposalPage.tsx:111-119 | every row is either found or not found |
| CsvProposal.NotFoundIffNoItem | pages/CsvProposalPage.tsx:102-119 | a row is not found exactly when no item has its key |
| CsvProposal.Process | pages/CsvProposalPage.tsx:49-119 | an empty file, a missing column (the precodice column exactly when it is missing, otherwise the code column), missing base data, or the match of the parsed rows |
| CsvProposal.ProcessFile | pages/CsvProposalPage.tsx:49-123 | the page's handler computes that outcome |
| CsvProposal.ErrorText | pages/CsvProposalPage.tsx:49-100 | an error is shown exactly when the outcome is not a match |
| CsvProposal.GenerateFromFound | pages/CsvProposalPage.tsx:150-155 | a draft is generated from the found items when there are any; otherwise the draft is unchanged |
| ProposalPage.GroupIndex | pages/ProposalPage.tsx:21 | finds the group with the key, or reports that none exists |
| ProposalPage.GroupIndexOf | pages/ProposalPage.tsx:21 | with distinct keys, the lookup returns the key's group |
| ProposalPage.AddToGroupFacts | pages/ProposalPage.tsx:21-24 | adding a line appends it to its key's group, creating the group at the end when new |
| ProposalPage.GroupContents | pages/ProposalPage.tsx:17-27 | groups have distinct keys; a key has a group exactly when some line has it, and the group holds those lines in order |
| ProposalPage.ValuesOfNonEmpty | pages/ProposalPage.tsx:17-27 | a key's lines are non-empty exactly when some pair has the key |
| ProposalPage.GroupFirstAppearance | pages/ProposalPage.tsx:17-27 | groups come in the order their keys first appear |
| ProposalPage.SupplierName | pages/ProposalPage.tsx:20 | a line with a non-empty supplier is grouped under that supplier; it is under "Sconosciuto" exactly when its supplier is absent, empty or that very name |
| ProposalPage.SupplierPairs | pages/ProposalPage.tsx:19-20 | each line paired with its supplier name |
| ProposalPage.GroupBySupplier | pages/ProposalPage.tsx:17-27 | the loop computes the supplier groups |
| ProposalPage.LinesOfValues | pages/ProposalPage.tsx:17-27 | a supplier's lines are its group's values |
| ProposalPage.SuppliersPartition | pages/ProposalPage.tsx:17-27 | one group per supplier present, holding exactly that supplier's lines in order |
| ProposalPage.SuppliersInFirstAppearanceOrder | pages/ProposalPage.tsx:17-27 | suppliers come in the order they first appear in the draft |
| ProposalPage.SheetName | pages/ProposalPage.tsx:40 | the sheet name is the prefix of the supplier name of length 31, or the whole name when it is no longer than that |
| ProposalPage.ExportLine | pages/ProposalPage.tsx:32-38 | the row carries the supplier, the code, the edited quantity and the precodice and description when present and non-empty, with empty text for absent or empty fields |
| ProposalPage.ExportSheet | pages/ProposalPage.tsx:31-40 | one row per line of the group, under the truncated name |
| ProposalPage.Export | pages/ProposalPage.tsx:29-43 | one sheet per supplier group, in group order |
| ProposalPage.ExportCarriesQuantities | pages/ProposalPage.tsx:29-43 | every draft line's edited quantity reaches its supplier's sheet |
| ProposalPage.LinesOfHas | pages/ProposalPage.tsx:17-27 | every line is among its supplier's lines |
| ProposalPage.HandleApprove | pages/ProposalPage.tsx:45-58 | without a user, with an empty draft or when the archive call fails, nothing changes; otherwise the draft is archived under the user's e-mail, cleared, and the displayed archive reloaded from the store; the item data never changes |
| Dashboard.FilteredData | pages/DashboardPage.tsx:24-36 | exactly the items that match the search and both filters, as a subsequence of the data (data order kept) |
| Dashboard.EmptySearchShowsAll | pages/DashboardPage.tsx:24-36 | no search and no filter shows every item |
| Dashboard.SearchIgnoresCase | pages/DashboardPage.tsx:27 | the search ignores the case of the typed text |
| Dashboard.FiltersNarrow | pages/DashboardPage.tsx:32-33 | switching a filter on never shows more rows |
| Dashboard.ItemsToReorder | pages/DashboardPage.tsx:77-85 | at most the number of items; zero exactly when no item has a positive recommendation (so a single item counts 1 exactly when it has one) |
| Dashboard.ItemsToReorderAdds | pages/DashboardPage.tsx:78-85 | the count of a concatenation is the sum of the counts; with the single-item case, every item with a positive recommendation counts once |
| Dashboard.SlowMoversCount | pages/DashboardPage.tsx:82-88 | at most the number of items; zero exactly when no item is flagged (so a single item counts 1 exactly when it is flagged) |
| Dashboard.SlowMoversCountAdds | pages/DashboardPage.tsx:82-88 | the count of a concatenation is the sum of the counts; with the single-item case, every flagged item counts once |
| Dashboard.HandleSelect | pages/DashboardPage.tsx:92-100 | toggles exactly the given id |
| Dashboard.VisibleIds | pages/DashboardPage.tsx:103 | the ids of the visible rows, in order |
| Dashboard.SelectAll | pages/DashboardPage.tsx:102-112 | visible ids become selected or unselected; other ids keep their state |
| Dashboard.HandleSelectAll | pages/DashboardPage.tsx:102-112 | the loop computes that selection |
| Dashboard.AllVisibleSelected | pages/DashboardPage.tsx:148-151 | true exactly when the table is not empty and every visible id is selected |
| Dashboard.SelectAllTogglesHeader | pages/DashboardPage.tsx:102-151 | ticking the header box makes it ticked; unticking it makes it unticked |
| Dashboard.Candidates | pages/DashboardPage.tsx:116-122 | the selected items when any are selected, otherwise those with a positive recommendation, as a subsequence of the data |
| Dashboard.DefaultCandidatesMatchKpi | pages/DashboardPage.tsx:77-122 | without a selection the draft has as many lines as the KPI counts |
| Dashboard.HandleGenerateProposal | pages/DashboardPage.tsx:114-128 | a draft is made from the candidates exactly when there are any |
| Dashboard.NextSort | pages/DashboardPage.tsx:153-159 | sorts by the clicked column, descending exactly when it was ascending on that column |
| Dashboard.SortCycles | pages/DashboardPage.tsx:153-159 | clicking the same column twice always flips the direction |
| Common.FilterIsSubsequence | pages/ArchivedProposalsPage.tsx:18-22 | filtering keeps the order of what it keeps |
| Common.FilterMultiset | pages/QuickAnalysisPage.tsx:20-24 | filtering keeps every kept value as often as it occurs, and no other value |
| Common.CountAppend | pages/DashboardPage.tsx:78-85 | the length of a filter adds up over concatenation |
| Common.IntToStringParses | frontend/src/App.jsx:19 | the decimal text a template literal prints for an integer reads back as that integer |
| Common.PlusIntToStringParses | frontend/src/App.jsx:19 | so does that text with a plus sign in front of a non-negative integer |
| ArchiveSearch.Search | pages/ArchivedProposalsPage.tsx:13-23 | a blank search shows all; otherwise exactly the proposals with a line code containing the term |
| ArchiveSearch.SearchKeepsOrder | pages/ArchivedProposalsPage.tsx:13-23 | the result keeps the archive order |
| Common.SubsequenceRefl | pages/ArchivedProposalsPage.tsx:14-16 | the whole archive is in its own order |
| ArchiveSearch.SearchFindsCode | pages/ArchivedProposalsPage.tsx:17-22 | searching for a line's code, in any case, finds its proposal |
| ArchiveSearch.ToggleExpansion | pages/ArchivedProposalsPage.tsx:25-27 | clicking the open row closes it; any other row opens |
| ArchiveSearch.ToggleTwice | pages/ArchivedProposalsPage.tsx:25-27 | two clicks on a row restore the state exactly when nothing or that row was open |
| QuickAnalysis.TrimAll | pages/QuickAnalysisPage.tsx:20 | each piece trimmed |
| QuickAnalysis.CleanCodes | pages/QuickAnalysisPage.tsx:20 | every code is a non-empty trimmed piece, and every non-empty trimmed piece occurs among the codes |
| QuickAnalysis.CleanCodesKeepsRepeats | pages/QuickAnalysisPage.tsx:20 | the codes are a subsequence of the trimmed pieces, each non-empty piece kept as often as it occurs and the empty ones dropped |
| QuickAnalysis.TrimAllTrimmed | pages/QuickAnalysisPage.tsx:20 | trimmed pieces are already trimmed |
| QuickAnalysis.UnreportedIffNotFound | pages/QuickAnalysisPage.tsx:23-24 | a code is missing from the set of lower-cased result codes exactly when no result's code matches it case-insensitively |
| QuickAnalysis.NotFound | pages/QuickAnalysisPage.tsx:23-24 | a subsequence of the typed codes holding each code that no result's code matches case-insensitively as often as it was typed, and no other code |
| QuickAnalysis.HandleAnalyze | pages/QuickAnalysisPage.tsx:14-29 | blank input changes nothing; a failing analysis leaves the page loading; otherwise results and codes not found are shown |
| QuickAnalysis.UnsoldReportedNotFound | pages/QuickAnalysisPage.tsx:20-24 | a code whose items have no snapshot is reported not found |
| QuickAnalysis.SoldNotReported | pages/QuickAnalysisPage.tsx:20-24 | a code of an item with a snapshot is not reported |
| OrderSummary.StatusDefinitionsDistinct | frontend/src/data/orders.js:1-20 | the three status definitions have distinct ids |
| OrderSummary.StatusCount | frontend/src/App.jsx:8-11 | a status count never exceeds the number of orders |
| OrderSummary.StatusCountPositive | frontend/src/App.jsx:8-11 | a count is positive exactly when some order has the status |
| OrderSummary.Tally | frontend/src/App.jsx:8-11 | the tally has exactly the statuses that occur, each with its count |
| OrderSummary.TrendLabel | frontend/src/App.jsx:15-19 | "In linea con il target" exactly at zero difference; otherwise "+" for a positive difference, the decimal difference and " rispetto al target" |
| OrderSummary.TrendLabelReadsBack | frontend/src/App.jsx:15-19 | off target, the label ends in " rispetto al target" and the text before it reads back as the difference |
| OrderSummary.Card | frontend/src/App.jsx:14-28 | the card copies the definition and the total; positive trend exactly when the total reaches the target |
| OrderSummary.BuildSummaryCards | frontend/src/App.jsx:7-32 | one card per status definition, with that status's count |
| OrderSummary.FilteredOrders | frontend/src/App.jsx:46-60 | exactly the orders matching the query and the status filter, as a subsequence of the orders |
| OrderSummary.NoFilterShowsAll | frontend/src/App.jsx:46-60 | an empty query with "all" shows every order |
| OrderSummary.StatusFilterZeroesOthers | frontend/src/App.jsx:55-56 | filtering on one status leaves no order of another status |

## Left out

- Rendering, navigation, loading flags, alerts and console logging of the pages are not modelled.
- Authentication and the user list are not modelled. The current user is a parameter.
- Reading the workbook (FileReader, the spreadsheet library) is not modelled. A sheet is given as rows of (column name, cell) pairs in column order.
- Writing the exported workbook file is not modelled. The export stops at the list of sheets.
- The simulated network latency is not modelled. Every call is synchronous.
- Floating-point arithmetic is not modelled. Covers are exact integer ceilings of `qty * days / 365`. Where the product rounds differently in floating point, the program can differ by one unit.
- The run rate is the simple yearly average. The policy's run-rate method, recent-weight window and factor are stored but not used, as in the program.
- The proposed order value and the reorder percentage KPIs use floating-point values and currency formatting. They are not modelled.
- The table sort comparator (`localeCompare` and date parsing) is not modelled. The visible rows are taken as given, in any order.
- Ids, timestamps and the current day come from the clock. They are parameters.
- The program joins precodice and code into one string with "---". The model keys on the pair, so texts that themselves contain "---" are not conflated as they would be in the program.
- `Number()` on text covers decimal integer text only. Fractional numbers are not modelled.
- Fractional Excel serials (times of day) are not modelled. Cells hold whole days.
- The "has precodice/description/location" display flags of the import page are not modelled.
- The generic "file could not be read" catch-all error paths are not modelled.
- The error branches of `refreshData` (empty data) and `refreshArchivedProposals` are not modelled, because no call of the in-memory database rejects on those paths.
- `importData` of the shared data state is not modelled.
- Two suppliers whose names agree in their first 31 characters give two sheets with the same name. The spreadsheet library's reaction to that is not modelled.
- `toLowerCase` and `trim` cover ASCII letters and the common whitespace characters only.
- `null` and `undefined` fields of an item are both absent (`None`). The cell model keeps them apart.
- The data state starts with no item data rather than `null`. The dashboard's "no data yet" case is the empty list.
- The sample orders of the orders board are not modelled. The operations take any order list.
- ProposalPage.SheetName: `substring(0, 31)` counts UTF-16 code units, while the model counts characters; a supplier name with characters outside the Basic Multilingual Plane before position 31 gets a longer sheet name in the model than in the program.
- ImportValidation.CheckRow, ImportValidation.ScanOneRow and ImportValidation.Validate store the intended sheet date (`ExcelSerialToDay`), not the date the program stores, which is one day earlier on any machine whose clock is not at UTC (see "## Findings"). The program's behaviour is modelled separately by `ImportValidation.ExcelDateAsWritten`.
- Store.MockDatabase.GetAllPolicies: returns the list itself, not a fresh copy, because aliasing of the copy plays no part in the model.

## Findings

| source | as written | input that shows it | evidently intended | confidence | as-written member | corrected member |
|---|---|---|---|---|---|---|
| pages/ImportPage.tsx:30-48 | the serial becomes a UTC midnight, is read back with local-time getters, rebuilt as local midnight and formatted in UTC | serial 45292 (1 January 2024) on a machine at UTC+1 is stored as 2023-12-31 | the date the spreadsheet shows, 2024-01-01, whatever the machine's offset | not executed | ImportValidation.ExcelDateShiftsOutsideUtc | ImportValidation.ExcelSerialToDay |
