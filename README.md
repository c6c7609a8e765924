# CV-Filter core, modelled in Dafny

CV-Filter is a recruiting dashboard. Recruiters upload CV files for a job. The
upload route stores the file, has the CV parsed and scored, and then does one of
three things with each file:

- records it as an error;
- reports it as a duplicate of an earlier upload, matched on the file's hash or
  the candidate's email;
- stores a new candidate with its upload.

The recruiter then settles each reported duplicate with one of three modes:
`merge`, `replace` or `create_new`. A second route applies that choice to the
store. Around these two routes the dashboard has several smaller pieces:

- the paged candidate list and its pager;
- a search and fit-score filter over the table;
- the duplicate dialog;
- the upload drawer's checks;
- the candidate form.

This project models all of these in Dafny and proves what they guarantee.

- `values.dfy` (`Values`): a candidate's ten columns as a typed `Profile`, and the
  loosely typed JSON `Value`s that travel in payloads. `ApplyUpdate` is the
  database's update: it refuses a value that does not fit its column, and
  otherwise replaces exactly the named columns. `Dedup` is
  `Array.from(new Set(...))`.
- `store.dfy` (`CandidateStore`): the candidate, upload and job tables. It has a
  pure `Db` snapshot with `AddCandidate`, `AddUpload` and `SetProfile`. The
  `Store` class holds the same tables and updates them in place; each of its
  methods is proved equal to the pure operation.
- `upload_cv.dfy` / `upload_cv_properties.dfy`: the upload route.
  - `UploadCv` loops over the files and updates the `Store`. It is proved equal
    to the fold `RunBatch` over the pure `IngestFile`.
  - The duplicate query's `findFirst` has no `orderBy`, so it is a choice (`:|`)
    among the matching rows. The chosen rows are returned as ghost `picks`, and
    every property holds for every legitimate choice.
- `process_route.dfy` / `process_properties.dfy`: the duplicate-resolution
  route.
  - `Process` loops over the items. It is proved equal to the fold `ResolveAll`
    over `ResolveItem`.
  - `BuildMergeUpdate` is the `for…in` loop that builds the merge object.
- `pagination.dfy`: the pager: page count, button window and Previous/Next.
- `candidates_tab.dfy`, `fit_score_filter.dfy`: the table filter and sort, and
  the bucket toggle.
- `duplicate_modal.dfy`: the duplicate dialog, a class over its list of rows.
- `upload_drawer.dfy`: the upload drawer, a class over the chosen job, the
  files and the result.
- `create_candidate_form.dfy`: the candidate form's prefill and its submitted
  payload.
- `candidates_route.dfy`: the paged listing with each candidate's current CV.

Everything outside the program is given as an input of the model:

- the CV parsing and scoring service;
- file storage;
- the SHA-256 hash, as a function `hashOf`;
- failures of individual database writes;
- `parseInt`, `toString` and date formatting.

Three behaviours of the code are easy to miss:

- A failure to write the file to disk is not a per-file error. It escapes the
  loop and ends the whole upload request with 500 (`FileEnv.storage`,
  `SaveFailed`).
- The resolution route's validation error is raised with status 400, but its
  `catch` answers every error with 500.
- The 404 message names the job: "Job not found: " followed by the id.

## Model

| member | source | states |
|---|---|---|
| Values.ApplyUpdate | src/app/api/cv/process/route.ts:50-53 | a write succeeds iff every value fits its column; afterwards each named column holds the written value and every other column keeps its old value |
| Values.FullWriteIgnoresRow | src/app/api/cv/process/route.ts:57-71 | a write naming every column gives the same row whatever row it overwrites |
| Values.ProfileByColumns | src/generated/prisma/index.d.ts:1416-1437 | two candidate rows that agree on every column are equal |
| Values.DedupSpec | src/app/api/cv/process/route.ts:44 | `Array.from(new Set(s))` has no repeats and holds exactly the elements of `s` |
| Values.Dedup | src/app/api/cv/process/route.ts:44 | `Array.from(new Set(s))`; its contract is stated by `DedupSpec`, `DedupOrder` and `DedupKeepsPrefix` |
| Values.DedupOrder | src/app/api/cv/process/route.ts:44 | `Array.from(new Set(s))` lists the elements in the order of their first occurrences in `s` |
| Values.DedupOfDistinct | src/app/api/cv/process/route.ts:44 | de-duplicating a list without repeats leaves it unchanged |
| Values.DedupKeepsPrefix | src/app/api/cv/process/route.ts:43-44 | de-duplicating `old ++ new` begins with de-duplicated `old`, whatever either list holds |
| Values.AllKeysComplete | src/generated/prisma/index.d.ts:1416-1437 | the key set lists every one of the ten editable columns |
| CandidateStore.IdText | src/app/api/cv/upload-cv/route.ts:31 | the id as it appears in a message is a non-empty string of decimal digits |
| CandidateStore.AddCandidate | src/app/api/cv/upload-cv/route.ts:118-131 | a create adds exactly one candidate, under a fresh id that no upload refers to, and keeps the store valid and every old row |
| CandidateStore.AddUpload | src/app/api/cv/upload-cv/route.ts:133-141 | a create appends exactly one upload with the given candidate, job, url, hash and status, under an id no other row has |
| CandidateStore.SetProfile | src/app/api/cv/process/route.ts:50-53 | an update changes only that candidate's columns; no other row and no upload moves |
| CandidateStore.FindUpload | src/app/api/cv/process/route.ts:21-24 | the lookup by id finds a row iff some upload has that id, and the row it returns has it |
| CandidateStore.Store.CreateCandidate | src/app/api/cv/upload-cv/route.ts:118-131 | the in-place create leaves the tables as `AddCandidate` describes |
| CandidateStore.Store.CreateUpload | src/app/api/cv/upload-cv/route.ts:133-141 | the in-place create leaves the tables as `AddUpload` describes |
| CandidateStore.Store.UpdateCandidate | src/app/api/cv/process/route.ts:50-53 | the in-place update leaves the tables as `SetProfile` describes |
| CandidateStore.Store.constructor | src/generated/prisma/index.d.ts:3617-3633 | a store starts with the given tables |
| UploadCvRoute.NewDataIsNewProfile | src/app/api/cv/upload-cv/route.ts:99-110 | every column reported in a duplicate's `newData` equals that column of the row ingestion would have created |
| UploadCvRoute.NewProfile | src/app/api/cv/upload-cv/route.ts:118-131 | the defaulted candidate row a new CV gets; `NewFileAddsCandidateAndUpload` states that exactly this row is added |
| UploadCvRoute.NewDataOf | src/app/api/cv/upload-cv/route.ts:99-110 | the `newData` of a duplicate; `NewDataIsNewProfile` states that it carries the columns of `NewProfile`, with gender and address absent when not extracted |
| UploadCvRoute.Matching | src/app/api/cv/upload-cv/route.ts:67-79 | the candidate rows for `findFirst` are exactly the uploads that match on hash, or on the candidate's email (a missing email drops that filter) |
| UploadCvRoute.QueryMatches | src/app/api/cv/upload-cv/route.ts:67-79 | the `findFirst` filter as written; `MissingEmailMatchesEveryUpload` states that without an email it matches every upload that has a candidate |
| UploadCvRoute.IntendedMatch | src/app/api/cv/upload-cv/route.ts:67-79 | the filter as intended; `IntendedMatchNeedsEmailOrHash` states that it matches on the hash alone when the email is missing |
| UploadCvRoute.DuplicateOf | src/app/api/cv/upload-cv/route.ts:81-111 | the duplicate report for the chosen row; `DuplicateWritesNothing` and `EmailReasonMeansCandidateMatch` state its fields and its reason |
| UploadCvRoute.IngestFile | src/app/api/cv/upload-cv/route.ts:44-148 | one file: stored, extracted, matched, then reported or inserted; `IngestOne` is proved equal to it and `IngestFileOnlyAdds` states that it only adds rows |
| UploadCvRoute.RunBatch | src/app/api/cv/upload-cv/route.ts:37-149 | the loop over the files as a fold; `RunFiles` is proved equal to it, and `BatchOnlyAdds`, `OutcomesFollowFiles` and `EveryFileAccountedFor` state its properties |
| UploadCvRoute.UploadSpec | src/app/api/cv/upload-cv/route.ts:18-169 | the whole route; `UploadCv` is proved equal to it and `RequestChecksComeFirst` states its answers |
| UploadCvRoute.IngestOne | src/app/api/cv/upload-cv/route.ts:44-148 | one pass of the loop body changes the store and yields the outcome exactly as `IngestFile` does, for a legitimate choice of the duplicate row |
| UploadCvRoute.RunFiles | src/app/api/cv/upload-cv/route.ts:37-149 | the file loop leaves the store as the fold over the files does, with the same three lists, halting at an escaping exception |
| UploadCvRoute.UploadCv | src/app/api/cv/upload-cv/route.ts:18-169 | the route's answer and its store are those of `UploadSpec`, and the store stays valid |
| UploadCvRoute.HaltedStays | src/app/api/cv/upload-cv/route.ts:158-165 | once an exception has escaped the loop, later files change nothing |
| UploadCvRoute.BatchStep | src/app/api/cv/upload-cv/route.ts:41 | the batch over one more file is the batch so far followed by that file, on the store those files left |
| UploadCvRoute.OutcomeStep | src/app/api/cv/upload-cv/route.ts:56-148 | one more outcome lands in exactly its own list, and only an escaped exception halts |
| UploadCvRoute.PadPicks | src/app/api/cv/upload-cv/route.ts:41-149 | files the loop never reached change neither the batch nor which choices were legitimate |
| UploadCvProperties.RequestChecksComeFirst | src/app/api/cv/upload-cv/route.ts:25-32 | a missing job or no files gives 400, and an unknown job gives 404 naming it; both come before any file and leave the store untouched; otherwise the answer is the batch's three lists, or 500 when an exception escaped |
| UploadCvProperties.ExtendsTrans | src/app/api/cv/upload-cv/route.ts:41 | growing the tables twice is growing them once |
| UploadCvProperties.IngestFileOnlyAdds | src/app/api/cv/upload-cv/route.ts:117-141 | one file keeps the store valid and only adds rows: no candidate or upload is changed or lost |
| UploadCvProperties.BatchOnlyAdds | src/app/api/cv/upload-cv/route.ts:41-149 | the whole batch keeps the store valid and only adds rows |
| UploadCvProperties.OutcomesFollowFiles | src/app/api/cv/upload-cv/route.ts:41-149 | outcomes follow the files in order, one each, named by their file; only the last can be an escaped exception, and without one every file has an outcome |
| UploadCvProperties.ListsPartitionOutcomes | src/app/api/cv/upload-cv/route.ts:56-148 | without an escaped exception, each outcome lands in exactly one of `new_cvs`, `duplicates` and `errors` |
| UploadCvProperties.EveryFileAccountedFor | src/app/api/cv/upload-cv/route.ts:41-149 | when the batch completes, the three lists together have exactly one entry per file |
| UploadCvProperties.ExtractionFailureWritesNothing | src/app/api/cv/upload-cv/route.ts:56-65 | a failure to upload, parse, score or delete gives one error entry with its message and writes nothing |
| UploadCvProperties.DuplicateWritesNothing | src/app/api/cv/upload-cv/route.ts:81-114 | a duplicate writes nothing. It reports the chosen row's id, the file name, reason "hash" iff the hashes are equal, the old url, the old name and email, and the defaulted `newData` |
| UploadCvProperties.EmailReasonMeansCandidateMatch | src/app/api/cv/upload-cv/route.ts:67-82 | an "email" reason means the chosen row has a candidate whose email equals the extracted one, or the email filter was dropped |
| UploadCvProperties.StoredHashIsAlwaysCaught | src/app/api/cv/upload-cv/route.ts:67-79 | a file whose hash is already stored is always a duplicate and writes nothing |
| UploadCvProperties.NewFileAddsCandidateAndUpload | src/app/api/cv/upload-cv/route.ts:117-141 | a new file adds exactly one candidate, with the defaulted profile, and one upload linking it to the job with the hash, the stored url and status "processed" |
| UploadCvProperties.UploadFaultKeepsCandidate | src/app/api/cv/upload-cv/route.ts:117-148 | when the upload insert fails after the candidate insert, the candidate stays, no upload is added, and the file gets an error entry |
| UploadCvProperties.SecondCopyIsHashDuplicate | src/app/api/cv/upload-cv/route.ts:41-141 | when the second reading of the file reports the same email as the first, a second copy of a file in the same batch is a hash duplicate of the first copy's upload, whatever row is chosen, and writes nothing |
| UploadCvProperties.OldRowsStillMiss | src/app/api/cv/upload-cv/route.ts:67-79 | adding a candidate that no upload refers to makes no old upload match the query |
| UploadCvProperties.ReasonDependsOnChoice | src/app/api/cv/upload-cv/route.ts:67-82 | on one concrete store both rows are legitimate choices, and they give reasons "hash" and "email" |
| UploadCvProperties.MissingEmailMatchesEveryUpload | src/app/api/cv/upload-cv/route.ts:73 | with no extracted email, every upload that has a candidate matches |
| UploadCvProperties.MissingEmailReportedAsEmailDuplicate | src/app/api/cv/upload-cv/route.ts:73 | a CV with no email and a new hash is reported as an "email" duplicate of an unrelated candidate |
| UploadCvProperties.IntendedMatchNeedsEmailOrHash | src/app/api/cv/upload-cv/route.ts:67-79 | with the corrected filter, a missing email matches on the hash only; otherwise the corrected filter agrees with the query |
| ProcessRoute.MergeData | src/app/api/cv/process/route.ts:38-48 | the merge object has exactly the keys of `newData` |
| ProcessRoute.MergeValue | src/app/api/cv/process/route.ts:40-47 | one merged value: a list becomes the de-duplicated old and new elements, anything else is overwritten; stated by `MergeChangesNamedColumns` and `MergedListIsOrderedUnion` |
| ProcessRoute.ReplaceData | src/app/api/cv/process/route.ts:57-71 | the replace object names every column, each with its defaulted value |
| ProcessRoute.ReplaceColumn | src/app/api/cv/process/route.ts:60-69 | one column of the replace object with its `??` default, the date kept only when truthy; stated by `ReplaceDefaults` |
| ProcessRoute.Lookup | src/app/api/cv/process/route.ts:21-35 | a found item is an upload with that id together with its existing candidate row |
| ProcessRoute.ResolveItem | src/app/api/cv/process/route.ts:19-103 | each item's result carries its `existingCvId`. The result is an error iff the upload or its candidate is missing or the mode is unknown; an error changes nothing; the store stays valid |
| ProcessRoute.ResolveAll | src/app/api/cv/process/route.ts:18-104 | the item loop as a fold that stops at an exception; `ResolveItems` is proved equal to it and `ResultsFollowItems` states its results |
| ProcessRoute.ResolveAllStep | src/app/api/cv/process/route.ts:18-104 | the loop over one more item is the loop so far followed by that item, or stays stopped after an exception |
| ProcessRoute.ThrownStays | src/app/api/cv/process/route.ts:107-108 | after an exception, later items are not looked at |
| ProcessRoute.BuildMergeUpdate | src/app/api/cv/process/route.ts:38-48 | the `for…in` loop builds exactly the merge object |
| ProcessRoute.ResolveOne | src/app/api/cv/process/route.ts:19-103 | one pass of the loop body changes the store and yields the result as `ResolveItem` does |
| ProcessRoute.ResolveItems | src/app/api/cv/process/route.ts:16-104 | the item loop leaves the store and results as the fold over the items does |
| ProcessRoute.Process | src/app/api/cv/process/route.ts:7-112 | the route's answer and its store are those of `ProcessSpec`, and a well-formed store stays well formed |
| ProcessRoute.ProcessSpec | src/app/api/cv/process/route.ts:7-112 | the whole route; `Process` is proved equal to it and `InvalidPayloadTouchesNothing` and `ThrowEndsRequest` state its failures |
| ProcessRoute.ResolveAllKeepsValid | src/app/api/cv/process/route.ts:16-104 | after any number of items the store is still well formed, so every item is handled on a well-formed store |
| ProcessProperties.ResultsFollowItems | src/app/api/cv/process/route.ts:16-104 | there is one result per item, in item order, each with that item's `existingCvId`; only an exception cuts the list short |
| ProcessProperties.InvalidPayloadTouchesNothing | src/app/api/cv/process/route.ts:9-14 | a missing or non-array `duplicates` answers 500 with the validation message and touches nothing |
| ProcessProperties.MissingRowIsReported | src/app/api/cv/process/route.ts:21-33 | an unknown upload, or one without a candidate, gives the "not found" error and no change |
| ProcessProperties.UnknownModeIsReported | src/app/api/cv/process/route.ts:101-103 | any mode other than the three gives "Invalid mode" and no change |
| ProcessProperties.MergeChangesNamedColumns | src/app/api/cv/process/route.ts:37-55 | a merge changes only the candidate's columns named in `newData`: lists become the de-duplicated union, scalars are overwritten, other columns, rows and uploads stay |
| ProcessProperties.DedupAbsorbs | src/app/api/cv/process/route.ts:44 | merging in elements that are all already present changes nothing |
| ProcessProperties.MergedListIsOrderedUnion | src/app/api/cv/process/route.ts:41-44 | a merged list begins with the de-duplicated old list, has no repeats and holds exactly the old and new elements; the elements after that prefix are the new ones missing from the old list, in the order of their first occurrences in the new list |
| ProcessProperties.MergeTwiceIsOnce | src/app/api/cv/process/route.ts:37-55 | merging the same `newData` a second time changes nothing |
| ProcessProperties.MergeExample | src/app/api/cv/process/route.ts:41-47 | ["Go"] merged with ["Go","Rust"] gives ["Go","Rust"], and "" overwrites the name |
| ProcessProperties.ReplaceRewritesEveryColumn | src/app/api/cv/process/route.ts:56-73 | replace rewrites every column of the candidate with the defaulted `newData` and changes nothing else |
| ProcessProperties.ReplaceDefaults | src/app/api/cv/process/route.ts:59-70 | missing or null name and email become "", lists become [], the score becomes 0, and gender, experience and address become null; a falsy birthdate becomes null; other given values are kept |
| ProcessProperties.CreateNewAddsOneOfEach | src/app/api/cv/process/route.ts:74-100 | create_new adds one candidate with the replace defaults under a new id, and one upload with the old job and url, hash "" and status "processed"; old rows are unchanged |
| ProcessProperties.ReplaceKeepsReportedColumn | src/app/api/cv/process/route.ts:57-71 | the replace default of a reported `newData` column is the column ingestion would have written |
| ProcessProperties.CreateNewMatchesIngestion | src/app/api/cv/process/route.ts:75-88 | create_new on a reported duplicate creates exactly the row that ingestion would have created for the file |
| ProcessProperties.ThrowEndsRequest | src/app/api/cv/process/route.ts:50-108 | an exception in an item's write ends the request with 500 and its message; earlier writes stay |
| ProcessProperties.ThrowWritesAtMostTheCandidate | src/app/api/cv/process/route.ts:75-98 | a failing item writes nothing, except that create_new can leave its new candidate when the upload insert fails |
| Pagination.TotalPages | src/components/Pagination.tsx:19 | the page count is the fewest pages of `limit` rows that hold all rows; it is 0 exactly when there are none |
| Pagination.GetPageNumbers | src/components/Pagination.tsx:21-33 | the button list built by pushes is the window: all pages up to five, else the first four, the last four or the neighbours, with ellipses |
| Pagination.PageNumbers | src/components/Pagination.tsx:21-33 | the button window; `PageNumbersWellFormed`, `NoRowsNoButtons` and `AtMostSevenButtons` state its shape |
| Pagination.PreviousTarget | src/components/Pagination.tsx:43-45 | Previous moves one page back only above page 1; stated by `StepsStayInRange` |
| Pagination.NextTarget | src/components/Pagination.tsx:73-75 | Next moves one page on only below the last page; stated by `StepsStayInRange` |
| Pagination.PageNumbersWellFormed | src/components/Pagination.tsx:24-29 | for a page in range, the numbers rise strictly, lie in `1..totalPages`, and include the first, current and last pages |
| Pagination.NoRowsNoButtons | src/components/Pagination.tsx:19-25 | with no rows there are no buttons |
| Pagination.AtMostSevenButtons | src/components/Pagination.tsx:24-29 | there are never more than seven buttons |
| Pagination.StepsStayInRange | src/components/Pagination.tsx:39-76 | Previous moves only when the page is above 1, and Next only when it is below the last; both stay in range and undo each other |
| FitScoreFilter.Without | src/app/page/dashboard/components/fit-score-filter.tsx:23 | the filtered selection has no copy of the value, and has every other value it had |
| FitScoreFilter.Toggle | src/app/page/dashboard/components/fit-score-filter.tsx:21-25 | the toggled value is selected afterwards iff it was not before, and every other value keeps its membership |
| FitScoreFilter.WithoutAbsent | src/app/page/dashboard/components/fit-score-filter.tsx:23 | filtering out an absent value changes nothing |
| FitScoreFilter.WithoutAppend | src/app/page/dashboard/components/fit-score-filter.tsx:23 | the filter distributes over concatenation, so the other values keep their order |
| FitScoreFilter.ToggleFlipsOnlyItsValue | src/app/page/dashboard/components/fit-score-filter.tsx:21-25 | a toggle flips whether the value is selected; the other values keep their order and repeats |
| FitScoreFilter.ToggleTwiceRestores | src/app/page/dashboard/components/fit-score-filter.tsx:21-25 | toggling an unselected value twice restores the selection |
| CandidatesTab.Lower | src/app/page/dashboard/components/candidates-tab.tsx:48-49 | lowercasing maps each ASCII capital to its small letter and keeps every other character |
| CandidatesTab.Filter | src/app/page/dashboard/components/candidates-tab.tsx:46-62 | the kept rows are exactly the input rows that pass search and fit filter, each passing row exactly as often as in the input |
| CandidatesTab.MatchesSearch | src/app/page/dashboard/components/candidates-tab.tsx:47-50 | the lowercased name or email contains the lowercased term; stated by `SearchIgnoresCase` and `EmptySearchKeepsNamedRows` |
| CandidatesTab.InBucket | src/app/page/dashboard/components/candidates-tab.tsx:53-58 | the score range of a fit bucket; `BucketsPartitionScores` states that the five buckets split every score and `MissingScoreOnlyBelowSixty` the null score |
| CandidatesTab.Insert | src/app/page/dashboard/components/candidates-tab.tsx:63-65 | inserting into a newest-first list keeps it newest first and adds just that row |
| CandidatesTab.SortNewestFirst | src/app/page/dashboard/components/candidates-tab.tsx:63-65 | the sort yields a newest-first permutation of its input |
| CandidatesTab.FilteredCandidatesSpec | src/app/page/dashboard/components/candidates-tab.tsx:45-65 | the table shows exactly the rows that pass both filters, each as often as it occurs in the input, newest first |
| CandidatesTab.FilteredCandidates | src/app/page/dashboard/components/candidates-tab.tsx:45-65 | filter then sort newest first; stated by `FilteredCandidatesSpec` |
| CandidatesTab.NoBucketKeepsAll | src/app/page/dashboard/components/candidates-tab.tsx:52 | with no bucket selected every row passes the fit filter |
| CandidatesTab.MissingScoreOnlyBelowSixty | src/app/page/dashboard/components/candidates-tab.tsx:53-58 | a row without a score passes a bucket iff the bucket is the below-60 one |
| CandidatesTab.BucketsPartitionScores | src/app/page/dashboard/components/candidates-tab.tsx:53-58 | every score lies in exactly one of the five offered buckets |
| CandidatesTab.EmptySearchKeepsNamedRows | src/app/page/dashboard/components/candidates-tab.tsx:47-49 | an empty search keeps exactly the rows with a name or an email |
| CandidatesTab.SearchIgnoresCase | src/app/page/dashboard/components/candidates-tab.tsx:47-49 | the search gives the same answer for a term and its lowercase form |
| CandidatesTab.LowerIdempotent | src/app/page/dashboard/components/candidates-tab.tsx:48 | lowercasing twice is lowercasing once |
| DuplicateModal.ToRequest | src/app/page/dashboard/components/DuplicateCVModal.tsx:139 | a submitted row carries its report's upload id and `newData` with a mode the route accepts |
| DuplicateModal.ModesAreAccepted | src/app/page/dashboard/components/DuplicateCVModal.tsx:114-121 | the three buttons send three different modes, each accepted by the resolution route |
| DuplicateModal.Dialog.constructor | src/app/page/dashboard/components/DuplicateCVModal.tsx:16 | the dialog starts with no rows |
| DuplicateModal.Dialog.Open | src/app/page/dashboard/components/DuplicateCVModal.tsx:18-22 | on open every reported duplicate is listed in order with mode merge; when closed the rows stay |
| DuplicateModal.Dialog.ChangeMode | src/app/page/dashboard/components/DuplicateCVModal.tsx:24-30 | one row takes the new mode; its report, the length and every other row stay |
| DuplicateModal.Dialog.ApplyToAll | src/app/page/dashboard/components/DuplicateCVModal.tsx:32-39 | every row takes the mode, in the same order with the same reports |
| DuplicateModal.Dialog.Submission | src/app/page/dashboard/components/DuplicateCVModal.tsx:139 | Confirm submits one request item per row, in order |
| DuplicateModal.Dialog.ConfirmEnabled | src/app/page/dashboard/components/DuplicateCVModal.tsx:139 | Confirm is enabled iff there is at least one row |
| UploadDrawer.FirstRepeatedName | src/app/page/dashboard/components/upload-cv-drawer.tsx:75-82 | no name is reported iff all names differ; a reported name is the first one seen a second time |
| UploadDrawer.Names | src/app/page/dashboard/components/upload-cv-drawer.tsx:76-77 | the names are the files' names in order |
| UploadDrawer.RemoveAt | src/app/page/dashboard/components/upload-cv-drawer.tsx:60-62 | removing index i drops the i-th file and keeps the rest in order; an index out of range removes nothing |
| UploadDrawer.RemoveAtLosesOneFile | src/app/page/dashboard/components/upload-cv-drawer.tsx:60-62 | removal loses exactly that one file |
| UploadDrawer.FailureText | src/app/page/services/cv.service.ts:24-27 | an error response from the route always shows "Upload failed"; a failed request shows its own message, or "Failed to upload CVs" when it has none |
| UploadDrawer.RouteErrorNeverShown | src/app/page/services/cv.service.ts:26 | the 404 for an unknown job shows "Upload failed", not its message, and the same toast as the 400 |
| UploadDrawer.IntendedFailureText | src/app/api/cv/upload-cv/route.ts:161 | the corrected toast shows the route's `error` text, with the same fallbacks |
| UploadDrawer.IntendedFailureTextShowsRouteError | src/app/api/cv/upload-cv/route.ts:158-165 | with the corrected reading, each rejection the route can send is shown with its own text |
| UploadDrawer.Drawer.constructor | src/app/page/dashboard/components/upload-cv-drawer.tsx:64 | the drawer starts with no job, no files and no result |
| UploadDrawer.Drawer.AddFiles | src/app/page/dashboard/components/upload-cv-drawer.tsx:55-58 | newly chosen files go after those already listed; nothing else changes |
| UploadDrawer.Drawer.RemoveFile | src/app/page/dashboard/components/upload-cv-drawer.tsx:60-62 | the list loses the i-th file; nothing else changes |
| UploadDrawer.Drawer.Submit | src/app/page/dashboard/components/upload-cv-drawer.tsx:64-105 | the checks run in order: job, then files, then distinct names. A failed check only shows its toast. A successful upload clears the files and job and opens the duplicate dialog iff duplicates were reported, closing the drawer otherwise. A failed upload keeps everything |
| CandidateForm.Split | src/app/page/dashboard/components/create-candidate-modal.tsx:103-104 | a split always has a piece, and no piece holds the separator |
| CandidateForm.JoinSplit | src/app/page/dashboard/components/create-candidate-modal.tsx:103-104 | joining the pieces of a split with the separator gives back the text |
| CandidateForm.TrimStart | src/app/page/dashboard/components/create-candidate-modal.tsx:105 | the result is a suffix of the text that does not start with white space |
| CandidateForm.TrimEnd | src/app/page/dashboard/components/create-candidate-modal.tsx:105 | the result is a prefix of the text that does not end with white space |
| CandidateForm.Trim | src/app/page/dashboard/components/create-candidate-modal.tsx:105 | the trimmed text has no white space at either end |
| CandidateForm.TrimStartCutsSpace | src/app/page/dashboard/components/create-candidate-modal.tsx:105 | everything that trimming at the start cuts off is white space |
| CandidateForm.TrimEndCutsSpace | src/app/page/dashboard/components/create-candidate-modal.tsx:105 | everything that trimming at the end cuts off is white space |
| CandidateForm.TrimIsSlice | src/app/page/dashboard/components/create-candidate-modal.tsx:105 | the trimmed text is the slice of the text that starts right after the leading white space |
| CandidateForm.TrimCutsOnlySpace | src/app/page/dashboard/components/create-candidate-modal.tsx:105 | everything after that slice is white space, so trimming cuts off white space and nothing else |
| CandidateForm.TrimKeepsOut | src/app/page/dashboard/components/create-candidate-modal.tsx:105 | trimming adds no character |
| CandidateForm.TrimSpacedWord | src/app/page/dashboard/components/create-candidate-modal.tsx:105 | trimming white space followed by trimmed text gives that text; trimmed text is left alone |
| CandidateForm.TrimPadded | src/app/page/dashboard/components/create-candidate-modal.tsx:105 | trimming trimmed text with white space on both sides gives that text, so `" Go "` becomes `"Go"` |
| CandidateForm.CleanPieces | src/app/page/dashboard/components/create-candidate-modal.tsx:105-106 | the cleaned pieces are non-empty and trimmed |
| CandidateForm.SplitList | src/app/page/dashboard/components/create-candidate-modal.tsx:103-114 | every list element sent is non-empty, trimmed and free of commas |
| CandidateForm.ListRoundTrip | src/app/page/dashboard/components/create-candidate-modal.tsx:68-114 | joining with ", " then splitting, trimming and cleaning gives back any list of non-empty, trimmed, comma-free words |
| CandidateForm.OnOpen | src/app/page/dashboard/components/create-candidate-modal.tsx:57-88 | an edit of a given candidate fills the form with its prefill; create mode resets every field to ""; edit without a candidate keeps the form |
| CandidateForm.Prefill | src/app/page/dashboard/components/create-candidate-modal.tsx:58-72 | the edit prefill; `EditWithoutChangesSendsRowBack` states that submitting it unchanged sends the row back |
| CandidateForm.NumberOf | src/app/page/dashboard/components/create-candidate-modal.tsx:101-102 | an empty number input is sent as null, and any other is parsed |
| CandidateForm.Payload | src/app/page/dashboard/components/create-candidate-modal.tsx:99-116 | text fields are sent as typed and a non-empty date as typed, an empty one as null. Experience and score are `NumberOf` their text: null iff empty or unreadable, otherwise `parseInt`'s value. Each list is `SplitList` of its text, the cleaned comma-separated pieces |
| CandidateForm.EmptyFormSendsNothing | src/app/page/dashboard/components/create-candidate-modal.tsx:73-116 | a fresh create form sends empty text, no numbers, no date and empty lists |
| CandidateForm.EditWithoutChangesSendsRowBack | src/app/page/dashboard/components/create-candidate-modal.tsx:57-116 | saving an edit form unchanged sends back the candidate's name, email, numbers and lists, and its gender and address with a null one sent as "". This holds when every list entry is non-empty, trimmed and free of commas, and when `parseInt` reads `showInt`'s text back as the same number; an entry with a comma is not covered, since the form splits it |
| CandidatesRoute.LatestProcessed | src/app/api/candidates/route.ts:17-21 | a candidate's current CV is one of its processed uploads with the latest `created_at`; there is none iff it has no processed upload |
| CandidatesRoute.ListOne | src/app/api/candidates/route.ts:13-30 | a listed row is the candidate unchanged. `cv_uploads` holds at most one upload: a processed upload of the candidate whose `created_at` is the latest, none iff it has no processed upload. `file_url` is that upload's url, or null when there is none |
| CandidatesRoute.Window | src/app/api/candidates/route.ts:13-15 | the window holds the rows from `skip` on, at most `take` of them, in table order |
| CandidatesRoute.ListCandidates | src/app/api/candidates/route.ts:12-32 | `total` counts every candidate |
| CandidatesRoute.Param | src/app/api/candidates/route.ts:8-9 | `parseInt` of the parameter, or of the default when the parameter is missing or empty; `DefaultsListFirstTen` and `NegativeSkipFails` use it |
| CandidatesRoute.ListingIsThePage | src/app/api/candidates/route.ts:8-32 | a listing holds the rows from `(page-1)*limit` on, at most `limit`, each with its current CV, and the total of all rows |
| CandidatesRoute.DefaultsListFirstTen | src/app/api/candidates/route.ts:8-9 | without parameters the first ten rows are listed, as page 1 with limit 10 |
| CandidatesRoute.NegativeSkipFails | src/app/api/candidates/route.ts:10-15 | page 0 gives a negative `skip`, which the query refuses |
| CandidatesRoute.UnprocessedNeverCounts | src/app/api/candidates/route.ts:18 | an upload that is not processed never changes the current CV |
| CandidatesRoute.NewestProcessedIsCurrent | src/app/api/candidates/route.ts:18-20 | a processed upload newer than its candidate's others becomes the current CV |
| CandidatesRoute.IngestedCandidateShowsItsFile | src/app/api/candidates/route.ts:27-30 | a candidate just created by ingestion is listed with the url of the file just stored |
| CandidatesRoute.RowOnItsPage | src/app/api/candidates/route.ts:10-15 | with a positive limit, row i is listed on page `i / limit + 1` at position `i % limit`; that page lies within `1..totalPages`, the pager showing it lists its number, and Next leads to it from page 1 |

## Left out

- The CV parsing and scoring service, with its network calls and JSON fallbacks, is an input: each file's `Extraction` is either a parsed record with a score, or a failure with its message.
- SHA-256 is the parameter `hashOf`, a function from file bytes to hex text.
- File storage is an input: `mkdir`, `writeFile`, the `Date.now()` file name and the url derived from the path. Per file it gives the stored url, or a failure that ends the request.
- Database faults on a write are inputs per file (`FileEnv`) and per item (`ItemEnv`). The Prisma client itself and `$disconnect` are not modelled.
- Ids are natural numbers; the database's string ids only need to be distinct. `created_at` is a counter that grows with each write. `updated_at` is not modelled.
- Dates are their ISO text. `new Date(...)`, `toISOString` and the day formatting are the parameter `isoDay`. `parseInt` and `toString` are the parameters `parseInt` and `showInt`; a NaN from `parseInt` is `None`.
- The fit score and experience are integers. The service's score can be fractional; only comparisons with whole thresholds matter here.
- Keys of `newData` outside the ten candidate columns are not modelled. In the source, the database would refuse them and the merge would then throw.
- ProcessRoute.ResolveItem: a non-string birthdate is not modelled. `Truthy` covers the date values a payload can carry as text or null.
- UploadCvRoute.ReportedColumn (with the datatype `ParsedCv`): an extracted gender or address is either text or missing. The source's parser type declares both as optional text, but a JSON `null` from the service would be copied into `newData` as null, and a later merge would then overwrite the column with null. The model drops the key, so the merge keeps the old value.
- SecondCopyIsHashDuplicate: assumes the second reading of the file reports the same email as the first. When the parsing service reads a different or no email, the email filter can match an older upload; `findFirst` may then pick it and report reason "email".
- CandidatesTab.Lower and CandidateForm.Trim cover ASCII only. JavaScript's `toLowerCase` and `trim` also handle other Unicode letters and spaces.
- DuplicateModal.Dialog.ChangeMode copies the array but mutates the shared row object. The model updates a value, so the aliasing with the previous React state is not captured.
- CandidatesRoute.ListCandidates: a negative `take` is modelled as a refused query. Prisma would read it as taking from the end.
- CandidatesRoute.LatestProcessed: when several processed uploads share the latest `created_at`, the model picks the first. The database's pick among them is unspecified.
- CandidatesRoute: the table order of `findMany` without `orderBy` is the order of the input sequence.
- Concurrency: requests that race on the same hash or email are not modelled.
- The rendering and toasts beyond their texts are not modelled. Neither is the XLSX export, nor the jobs and candidate CRUD pages outside the named handlers. The drawer's `handleDuplicateSubmit` is also left out.
- UploadDrawer.Drawer.Submit: the success callback `onUploadSuccess` is folded into the `closed` flag.

## Findings

| source | as written | input that shows it | evidently intended | confidence | as-written member | corrected member |
|---|---|---|---|---|---|---|
| src/app/api/cv/upload-cv/route.ts:73 | `email: parsedData.email \|\| undefined` drops the email filter when no email is extracted, so the `OR` matches every upload that has a candidate | a store with one upload for `an@example.com`, hash `aa`; a new CV with no email and hash `bb` is reported as an "email" duplicate of it | match on email only when an email was extracted, so a CV without one is a duplicate only by hash | not executed | UploadCvProperties.MissingEmailReportedAsEmailDuplicate | UploadCvProperties.IntendedMatchNeedsEmailOrHash |
| src/app/page/services/cv.service.ts:26 | the service reads `errorData?.message`, but the upload route answers errors as `{ error: ... }` (src/app/api/cv/upload-cv/route.ts:161), so every rejection shows "Upload failed" | an upload for an unknown job 7: the route answers 404 "Job not found: 7"; the drawer shows "Upload failed", the same toast as a 400 | show the route's `error` text | not executed | UploadDrawer.RouteErrorNeverShown | UploadDrawer.IntendedFailureTextShowsRouteError |

Both findings are modelled as the code behaves. Ingestion uses the filter as
written (`QueryMatches`) and the drawer uses `FailureText`. The corrected
definitions, `IntendedMatch` and `IntendedFailureText`, sit beside them with
their properties proved.
