# Malaa portal core, modelled in Dafny

Malaa is a web portal for diagnosing and following up students with disabilities across the
eleven governorates of Oman. Specialists register cases. Supervisors run a central review
(an "audit") of each case. A section head rates the reviewers. The portal derives dashboards,
specialist scores and a periodic report from the stored cases, audits and users. It exports that
report as CSV and Word.

This project models the logic behind those screens and proves what it promises:

- `Records`: the record shapes (cases, audits, users, governorates) and the fixed tables.
- `Storage`: the entity stores. Each store is an `EntityStore` object whose `items` field holds its
  list of records. Its methods update that list in place.
- `PeriodicReport`: the periodic report engine. It covers the date and attribute filter, the
  distinct-school counts, the distributions and gender shares, and the six-month trend. It also
  covers specialist coverage, the per-governorate axis averages driven by a seeded generator, the
  ranking and the weakest axis.
- `Prng`: the 32-bit FNV-1a `hashString` loop and the `mulberry32` generator. The generator is a
  class whose draws advance its state.
- `CentralReview`: the central-review page. It covers the completeness rule, the status and
  close-date resolution on save, and the insert-or-update of the case's audit.
- `AuditCaseList`: the audit-case list. It covers the labels and ranks, the chain of filters, the
  two lexicographic orderings and the reviewer options.
- `CsvExport`: the CSV escaper and serialiser, with a reader for the format. The two are proved
  inverse.
- `DocxText`: the right-to-left text helpers of the Word exporter. These are the direction marks,
  the decimal and percent rewrites, the mirrored parentheses and the Arabic-Indic digits.
- `SpecialistsList`: the per-specialist scores, including the order in which demo scores are drawn.
  It also covers the KPI means and the national bar chart.
- `NewCase`: the new-case form. It covers the age, the required-field check, and the creation of
  the case and its notification.
- `SupervisorDashboard`: the dashboard figures the report does not share. These are the specialists
  count, the mean report delay, the audited cases, the share without major notes, and the radar.
- `JsText`, `Arith`, `Lists`, `Sorting`: the JavaScript primitives these rely on. They are
  `trim`, UTF-16 units, `Math.round` of a quotient, `filter` and counting, and the stable `sort`
  (a comparator is a key compared lexicographically).

Integers are unbounded. The 32-bit wrap-around of `Math.imul`, `^` and `>>>` is written over
`bv32`. Percentages are exact integer tenths of a percent. The clock, generated ids, and the parse
of date strings are parameters.

## Model

| member | source | states |
|---|---|---|
| Records.FindGovernorateName | src/pages/portal/supervisor/AuditCases.jsx:53-55 | a name is found exactly when some governorate has the id, and it is that governorate's name |
| Records.LastAuditFor | src/utils/report/periodicMalaaReport.js:183 | the map from case id to audit returns the last audit stored for the case, and none exactly when the case has no audit |
| Prng.HashString | src/utils/report/periodicMalaaReport.js:16-23 | the hash loop over the UTF-16 code units returns the 32-bit FNV-1a hash of the string |
| Prng.Fnv1aIsFold | src/utils/report/periodicMalaaReport.js:16-23 | the loop's hash is the textbook FNV-1a fold from the offset basis 2166136261 with prime 16777619 modulo 2^32 |
| Prng.FnvConcat | src/utils/report/periodicMalaaReport.js:18-21 | hashing a concatenation resumes from the hash of the first part |
| Prng.Mulberry32.constructor | src/utils/report/periodicMalaaReport.js:25-26 | a new generator holds its seed as state and has made no draw |
| Prng.Mulberry32.Next | src/utils/report/periodicMalaaReport.js:27-30 | a draw adds 0x6D2B79F5 to the state modulo 2^32 and returns the draw named by the seed and the number of earlier draws |
| Prng.JitterBounds | src/utils/report/periodicMalaaReport.js:189 | a jitter over an even range w lies in [-w/2, w/2], so in [-6, 6] for the audit jitter and [-5, 5] for the fallback |
| JsText.TrimStart | src/utils/report/periodicMalaaReport.js:83 | the result is a suffix of the text that does not start with whitespace, and only whitespace was dropped |
| JsText.TrimEnd | src/utils/report/periodicMalaaReport.js:83 | the result is a prefix of the text that does not end with whitespace, and only whitespace was dropped |
| JsText.TrimEmptyIffBlank | src/utils/report/periodicMalaaReport.js:83-84 | a text trims to the empty string exactly when all its characters are whitespace |
| JsText.Utf16Append | src/utils/report/periodicMalaaReport.js:18-19 | the code units of a concatenation are those of the parts, in order |
| JsText.Utf16LengthOfBmp | src/utils/report/periodicMalaaReport.js:190 | a text in the Basic Multilingual Plane has one code unit per character |
| JsText.NatToString | src/utils/docx/generatePeriodicMalaaDocx.js:53 | the decimal rendering of a natural number is a non-empty run of digits |
| Arith.CeilDiv | src/utils/report/periodicMalaaReport.js:168 | the rounded-up quotient is the least natural number whose multiple of the divisor reaches the numerator |
| Arith.RoundDivBounds | src/utils/report/periodicMalaaReport.js:208-210 | a rounded mean of values in [lo, hi] lies in [lo, hi] |
| Arith.PercentTenthsBounds | src/utils/report/periodicMalaaReport.js:105 | a share of at most the whole is a percentage in [0, 100] |
| Lists.Filter | src/utils/report/periodicMalaaReport.js:66 | the kept elements all pass, all come from the input, and every passing input element is kept |
| Lists.FilterTwice | src/utils/report/periodicMalaaReport.js:65-73 | two successive filter passes keep exactly the elements passing both conditions, in order |
| Lists.FilterMultiset | src/utils/report/periodicMalaaReport.js:66 | filtering keeps every passing element with its multiplicity and drops the others |
| Lists.FilterMembership | src/utils/report/periodicMalaaReport.js:66 | an element is kept exactly when it is in the input and passes |
| Lists.CountDisjoint | src/utils/report/periodicMalaaReport.js:124-125 | two conditions no element meets together never count more elements than there are |
| Lists.CountUnion | src/utils/report/periodicMalaaReport.js:99-101 | counting by a disjoint union adds the two counts |
| Lists.SumBounds | src/utils/report/periodicMalaaReport.js:209 | a sum of n values in [lo, hi] lies in [n lo, n hi] |
| Sorting.LexTransitive | src/pages/portal/supervisor/AuditCases.jsx:158-191 | the lexicographic order of comparator keys is transitive |
| Sorting.LexTotal | src/pages/portal/supervisor/AuditCases.jsx:158-191 | any two different keys are ordered one way or the other |
| Sorting.SortByKeyCorrect | src/utils/report/periodicMalaaReport.js:75 | the sort returns a permutation of its input, ordered by key, with equal keys in input order |
| Sorting.SortByKeyMembers | src/utils/report/periodicMalaaReport.js:75 | the sorted list holds exactly the elements of the input |
| Sorting.SortedHeadIsFirstMinimum | src/utils/report/periodicMalaaReport.js:235-236 | the head of the sort is the first input element with the smallest key |
| Sorting.InsertWithKey | src/utils/report/periodicMalaaReport.js:75 | inserting into a sorted list appends the element after the existing elements of its key |
| Storage.FindIndex | src/data/storage.js:60 | the index is that of the first record passing the test, and none exactly when no record passes |
| Storage.Find | src/data/storage.js:73-76 | the result is the first record passing the test, and none exactly when no record passes |
| Storage.Updated | src/data/storage.js:62 | the merge holds the keys of both records; the updates win, and the stamping stores set updatedAt to now |
| Storage.OrDefault | src/data/storage.js:84-86 | a truthy stored value is kept, anything else gives the fallback |
| Storage.NewRecordFields | src/data/storage.js:81-92 | a created record keeps every field of the data that create does not set itself, keeps a truthy caller id, and a new notification is unread |
| Storage.AllReadHasNoUnread | src/data/storage.js:210-218 | after every notification is marked read, none is unread |
| Storage.FilterShorter | src/data/storage.js:107-112 | deleting by id shortens the list exactly when some record has that id |
| Storage.EntityStore.constructor | src/data/storage.js:71 | a store with nothing saved is empty |
| Storage.EntityStore.UnreadCount | src/data/storage.js:215-218 | the unread count never exceeds the number of notifications |
| Storage.EntityStore.Update | src/data/storage.js:93-106 | only the first record with the id is replaced, by its merge with the updates (stamped in cases and reports); the length and all other records stay; an unknown id changes nothing and returns none |
| Storage.EntityStore.Delete | src/data/storage.js:107-112 | the list keeps exactly the records without the id, and the result says whether some record had it |
| Storage.EntityStore.Create | src/data/storage.js:81-92 | the new record is appended for cases, audits and activities and put first for notifications and reports, and is returned |
| Storage.EntityStore.MarkAsRead | src/data/storage.js:200-209 | only the first notification with the id is marked read; an unknown id changes nothing and returns none |
| Storage.EntityStore.MarkAllAsRead | src/data/storage.js:210-214 | every notification is marked read, after which the unread count is 0 |
| PeriodicReport.Clamp | src/utils/report/periodicMalaaReport.js:13 | the result lies in [lo, hi], equals n when n does, and is the nearer bound otherwise |
| PeriodicReport.IsWithinRangeRules | src/utils/report/periodicMalaaReport.js:41-49 | a missing or unparsable case date fails, a missing or unparsable bound is ignored, and both bounds are inclusive |
| PeriodicReport.SelectForReportIsConjunction | src/utils/report/periodicMalaaReport.js:61-73 | the filter passes keep exactly the cases meeting every active criterion, in input order |
| PeriodicReport.NewestFirstSorted | src/utils/report/periodicMalaaReport.js:75 | after the sort the creation times never increase |
| PeriodicReport.FilterCasesForReportCorrect | src/utils/report/periodicMalaaReport.js:61-76 | the report's cases are the matching input cases with their multiplicities, newest first, with ties in input order |
| PeriodicReport.FilterCasesForReportMembers | src/utils/report/periodicMalaaReport.js:61-76 | every report case matches every active criterion, every matching case is in the report, and an active date filter admits only parsable dates |
| PeriodicReport.SchoolsOfTypeMembers | src/utils/report/periodicMalaaReport.js:82-87 | a school is counted for a type exactly when some case of that type carries its trimmed, non-empty name |
| PeriodicReport.SchoolsOfTypeSize | src/utils/report/periodicMalaaReport.js:82-87 | there are no more distinct schools of a type than cases naming a school of that type |
| PeriodicReport.ComputeEducationStructure | src/utils/report/periodicMalaaReport.js:78-94 | the pass over the cases returns the number of distinct public and private schools and their total |
| PeriodicReport.EducationStructureOf | src/utils/report/periodicMalaaReport.js:89-93 | the total is the public count plus the private count |
| PeriodicReport.EducationStructureBound | src/utils/report/periodicMalaaReport.js:78-94 | public and private schools together number at most the cases |
| PeriodicReport.ReferralSourcesDistinct | src/data/constants.js:38-43 | the referral sources are four different names |
| PeriodicReport.CountByName | src/utils/report/periodicMalaaReport.js:98-101 | the counter map has exactly the listed names, each holding the number of cases whose truthy value is that name |
| PeriodicReport.ComputeDistribution | src/utils/report/periodicMalaaReport.js:96-107 | the counting pass and the row mapping return one row per listed name, in list order, with its count and share |
| PeriodicReport.DistributionRows | src/utils/report/periodicMalaaReport.js:102-106 | there is one row per listed name |
| PeriodicReport.SumCountsIsCount | src/utils/report/periodicMalaaReport.js:98-101 | the counts of distinct names add up to the cases whose value is one of the names |
| PeriodicReport.DistributionBounds | src/utils/report/periodicMalaaReport.js:109-120 | the counts add up to at most the cases, each share lies in [0, 100] percent, and all shares are 0 for no cases |
| PeriodicReport.ComputeGenderStats | src/utils/report/periodicMalaaReport.js:122-132 | the counts are the female and male cases, together at most the cases, each share is that count's percentage of max(1, n) in [0, 100] |
| PeriodicReport.MonthsBefore | src/utils/report/periodicMalaaReport.js:140 | the month is a valid month exactly i months before the current one |
| PeriodicReport.ComputeInclusionTrends | src/utils/report/periodicMalaaReport.js:134-159 | the loop from 5 down to 0 pushes the buckets of the six months |
| PeriodicReport.InclusionTrends | src/utils/report/periodicMalaaReport.js:134-159 | there are exactly six buckets |
| PeriodicReport.InclusionTrendShape | src/utils/report/periodicMalaaReport.js:139-156 | buckets run oldest first one month apart ending at the current month; full plus partial is at most the total; a month without cases is all zeros |
| PeriodicReport.CoverageFor | src/utils/report/periodicMalaaReport.js:164-179 | the counts are the governorate's specialists and cases, the required number is max(1, ceil(cases / ratio)), and the coverage is the specialists' share of the required number capped at 999 percent, so in [0, 999] |
| PeriodicReport.ComputeCoverage | src/utils/report/periodicMalaaReport.js:161-180 | there is one coverage row per governorate, in enumeration order |
| PeriodicReport.NoteBase | src/utils/report/periodicMalaaReport.js:190 | an empty note gives 65, any other note a base in [72, 94] |
| PeriodicReport.AxisScoreFromAudit | src/utils/report/periodicMalaaReport.js:185-192 | the score lies within 6 of the note's base, in [59, 100], and at most 71 for an empty note |
| PeriodicReport.FallbackAxisValue | src/utils/report/periodicMalaaReport.js:201-205 | the fallback value lies in [65, 75] |
| PeriodicReport.Scored | src/utils/report/periodicMalaaReport.js:196-198 | each kept case is paired with its last audit, and none is kept exactly when no case has an audit |
| PeriodicReport.ScoredKeepsOrder | src/utils/report/periodicMalaaReport.js:196-198 | the scored cases are exactly the cases that have an audit, in input order |
| PeriodicReport.AxisValueFor | src/utils/report/periodicMalaaReport.js:200-212 | an axis value carries the axis key and label, is the fallback when no case is audited, and otherwise is the rounded mean of the audited cases' axis scores, which lies in [59, 100], so the clamp never changes it |
| PeriodicReport.GovernorateAverages | src/utils/report/periodicMalaaReport.js:194-221 | a governorate row has one value per axis in axis order, each in [0, 100]; with audited cases each value is the rounded mean of the axis scores over the governorate's audited cases; the overall is the rounded mean of the axis values, in [0, 100] |
| PeriodicReport.UnauditedGovernorateUsesFallback | src/utils/report/periodicMalaaReport.js:201-205 | a governorate with no audited case takes on every axis the fallback seeded by its id, the axis key and its case count |
| PeriodicReport.ComputeGovernorateAxisAverages | src/utils/report/periodicMalaaReport.js:182-222 | there is one row per governorate, in enumeration order |
| PeriodicReport.RankCorrect | src/utils/report/periodicMalaaReport.js:254 | the ranking is a permutation of the averages, non-increasing in overall, with ties in governorate order |
| PeriodicReport.BestAndWorstPresent | src/utils/report/periodicMalaaReport.js:255-256 | best and worst are absent exactly when there are no governorates |
| PeriodicReport.BestIsFirstHighest | src/utils/report/periodicMalaaReport.js:255 | best is the first governorate in enumeration order with the highest overall |
| PeriodicReport.WorstIsLowest | src/utils/report/periodicMalaaReport.js:256 | worst is one of the governorates and has the lowest overall |
| PeriodicReport.AxisMeans | src/utils/report/periodicMalaaReport.js:228-233 | there is one mean per axis of the first governorate, carrying its index, name and rounded mean |
| PeriodicReport.ProblematicAxisCorrect | src/utils/report/periodicMalaaReport.js:224-237 | the axis is absent exactly when there are no governorates or no axes; otherwise it has the lowest mean, the lowest index among ties |
| PeriodicReport.RankingAlwaysComplete | src/utils/report/periodicMalaaReport.js:253-257 | the ranking has one entry per governorate, so best, worst and the problematic axis are present |
| PeriodicReport.TotalsBound | src/utils/report/periodicMalaaReport.js:242-244 | completed and incomplete cases together never exceed the total |
| PeriodicReport.ReportShape | src/utils/report/periodicMalaaReport.js:239-278 | the totals are bounded, there are six trend buckets, one coverage and ranking row per governorate, one row per program and source, and best, worst and problematic axis are present |
| PeriodicReport.BuildPeriodicMalaaReportData | src/utils/report/periodicMalaaReport.js:239-278 | the builder computes every section from the filtered cases |
| CentralReview.CentralReviewCompleteMeaning | src/pages/portal/AuditCaseReview.jsx:44-50 | a draft is complete exactly when all seven axis notes and the general notes hold a non-whitespace character and a start date is set |
| CentralReview.ResolveCentralReviewSave | src/pages/portal/AuditCaseReview.jsx:160-202 | an empty start date becomes today; a completed status on an incomplete draft fails and becomes in review with no close date; a complete one keeps the entered close date or today; another status clears it; no status keeps it |
| CentralReview.SaveStartDateAlwaysSet | src/pages/portal/AuditCaseReview.jsx:164-171 | on the save path completeness depends on the notes alone |
| CentralReview.ReviewBase | src/pages/portal/AuditCaseReview.jsx:145-149 | the base holds exactly the case id, the governorate id and the specialist id |
| CentralReview.UpsertedAuditsShape | src/pages/portal/AuditCaseReview.jsx:143-158 | with an audit for the case, only the first record holding that audit's id changes (the case's audit itself when ids are unique); it becomes the review base and the partial fields spread over it, and keeps its id; otherwise exactly one audit is appended, carrying the base and the partial fields |
| CentralReview.UpsertUpdatesExisting | src/pages/portal/AuditCaseReview.jsx:151-154 | with an audit for the case, the record at the first index holding that audit's id is the only one changed; it becomes `{ ...old, ...base, ...partial }` and keeps its id, and it is the case's audit when ids are unique |
| CentralReview.UpdateIsSpread | src/pages/portal/AuditCaseReview.jsx:151-152 | updating an audit with `{ ...base, ...partial }` gives the record whose fields are the partial ones, then the base ones, then its own |
| CentralReview.UpsertAppendsNew | src/pages/portal/AuditCaseReview.jsx:156-157 | without one, the list grows by one audit that carries the base fields (case id, governorate id, specialist id) and the partial fields |
| CentralReview.UpsertReview | src/pages/portal/AuditCaseReview.jsx:143-158 | the audit store ends as the upserted list |
| CentralReview.SaveCentralReview | src/pages/portal/AuditCaseReview.jsx:160-212 | the store holds the upserted payload with the resolved start date, status and close date: a refused completed status becomes "in review" with no close date, an accepted one keeps the entered close date or takes today, another status clears it and no status keeps it; the page is left exactly when a completed status was not refused |
| AuditCaseList.IndexOf | src/pages/portal/supervisor/AuditCases.jsx:81 | the position is that of the first occurrence, and -1 exactly when the label is absent |
| AuditCaseList.ReviewStatusOrder | src/pages/portal/supervisor/AuditCases.jsx:79-83 | the four labels rank 0 to 3 in list order and any other label ranks 4 |
| AuditCaseList.ReviewStatusOrderSectionHead | src/pages/portal/supervisor/AuditCases.jsx:86-90 | the four labels rank 0 to 3 in list order and any other label ranks -1 |
| AuditCaseList.ReviewerEvalOrder | src/pages/portal/supervisor/AuditCases.jsx:92-96 | the three labels rank 0 to 2 in list order and any other label ranks 3 |
| AuditCaseList.EvalLabelRank | src/pages/portal/supervisor/AuditCases.jsx:98-103 | no audit or no ratings record ranks first, four ratings rank last, any other ratings in between |
| AuditCaseList.SpecialistGovernorate | src/pages/portal/supervisor/AuditCases.jsx:126-127 | a governorate is found only for a specialist with that id, and none when there is no such specialist |
| AuditCaseList.ScopedCasesIsFilter | src/pages/portal/supervisor/AuditCases.jsx:116-132 | the governorate passes keep exactly the cases in scope, in input order |
| AuditCaseList.DataPassesIsFilter | src/pages/portal/supervisor/AuditCases.jsx:134-140 | the status and date passes keep exactly the cases passing them, in input order |
| AuditCaseList.ReviewPassesIsFilter | src/pages/portal/supervisor/AuditCases.jsx:142-156 | the reviewer and evaluation passes keep exactly the cases passing them, in input order |
| AuditCaseList.SelectListCasesIsConjunction | src/pages/portal/supervisor/AuditCases.jsx:112-156 | the chain of passes keeps exactly the cases passing every active filter, in input order |
| AuditCaseList.FilteredCasesCorrect | src/pages/portal/supervisor/AuditCases.jsx:112-191 | the list holds exactly the cases passing every active filter, with multiplicity, ordered by the viewer's key, ties in input order |
| AuditCaseList.FilteredCasesOrder | src/pages/portal/supervisor/AuditCases.jsx:158-191 | of any two listed cases the earlier one is not after the later one by the comparator's three tie-broken comparisons |
| AuditCaseList.FilteredCasesMatch | src/pages/portal/supervisor/AuditCases.jsx:112-156 | every listed case passes every active filter |
| AuditCaseList.SpecialistSeesOwnGovernorate | src/pages/portal/supervisor/AuditCases.jsx:116-119 | a specialist with a governorate sees only cases of that governorate |
| AuditCaseList.UnknownSpecialistEmptiesList | src/pages/portal/supervisor/AuditCases.jsx:125-132 | a selected specialist who is unknown or has no governorate empties the list |
| AuditCaseList.ReviewerIdsInIff | src/pages/portal/supervisor/AuditCases.jsx:349-352 | a reviewer id is collected exactly when that reviewer reviewed a case of the governorate |
| AuditCaseList.ReviewerOptionsCorrect | src/pages/portal/supervisor/AuditCases.jsx:344-354 | with a specialist of a known governorate selected by a section head, exactly the central reviewers of that governorate's cases are offered; otherwise all central reviewers |
| CsvExport.DoubleQuotes | src/components/ui/ExportCsvButton.jsx:5 | doubling the quotes adds one character per quote |
| CsvExport.DoubleQuotesOccurrences | src/components/ui/ExportCsvButton.jsx:5 | doubling the quotes doubles their number |
| CsvExport.EscapeCsvCell | src/components/ui/ExportCsvButton.jsx:3-6 | a cell starts and ends with a quote and is the text's length plus its quotes plus two |
| CsvExport.ReadQuotedEscaped | src/components/ui/ExportCsvButton.jsx:5 | reading back an escaped text returns the text and stops right after the closing quote |
| CsvExport.CellRoundTrip | src/components/ui/ExportCsvButton.jsx:3-6 | dropping the outer quotes and un-doubling recovers the cell's text, empty for null |
| CsvExport.EscapedCellBalanced | src/components/ui/ExportCsvButton.jsx:3-6 | an escaped cell holds an even number of quotes |
| CsvExport.EncodeLines | src/components/ui/ExportCsvButton.jsx:11 | there is one encoded line per row, in row order |
| CsvExport.BuildCsv | src/components/ui/ExportCsvButton.jsx:14 | the text starts with the byte-order mark |
| CsvExport.ReadLineEncoded | src/components/ui/ExportCsvButton.jsx:10 | reading a line back, up to a line break or the end, recovers its cell texts |
| CsvExport.ReadLinesJoined | src/components/ui/ExportCsvButton.jsx:14 | reading lines joined by line breaks recovers every row's texts |
| CsvExport.CsvRoundTrip | src/components/ui/ExportCsvButton.jsx:8-15 | the exported text reads back as the header's texts followed by each row's texts |
| CsvExport.LineBalanced | src/components/ui/ExportCsvButton.jsx:10-11 | every line holds an even number of quotes |
| CsvExport.DownloadName | src/components/ui/ExportCsvButton.jsx:32 | the name ends with .csv, extends the given name, and equals it exactly when it already ends with .csv |
| CsvExport.DownloadNameIdempotent | src/components/ui/ExportCsvButton.jsx:32 | naming a name already named changes nothing |
| DocxText.DirText | src/utils/docx/generatePeriodicMalaaDocx.js:25-29 | the empty text stays empty; any other text is wrapped in left-to-right marks when it is Latin or numeric, else in right-to-left marks |
| DocxText.NumbersAreLeftToRight | src/utils/docx/generatePeriodicMalaaDocx.js:23-28 | a text of digits and whitespace that holds at least one digit is wrapped in a pair of left-to-right marks |
| DocxText.OtherTextIsRightToLeft | src/utils/docx/generatePeriodicMalaaDocx.js:23-28 | a text with a character outside the class after trimming is marked right-to-left |
| DocxText.TrimIsSlice | src/utils/docx/generatePeriodicMalaaDocx.js:23 | trimming keeps a contiguous slice of the text |
| DocxText.SwapParens | src/utils/docx/generatePeriodicMalaaDocx.js:46 | the parenthesis step swaps ( and ) and keeps every other character |
| DocxText.SwapParensInvolution | src/utils/docx/generatePeriodicMalaaDocx.js:46 | swapping twice gives the text back |
| DocxText.DecimalsOnlyDots | src/utils/docx/generatePeriodicMalaaDocx.js:39 | the decimal step keeps the length and only turns a dot between two digits into the Arabic separator |
| DocxText.DecimalsEveryFreeDot | src/utils/docx/generatePeriodicMalaaDocx.js:39 | every dot between two digits is converted unless its left digit closed the previous match |
| DocxText.PercentMatch | src/utils/docx/generatePeriodicMalaaDocx.js:42 | a match starts with a run of digits, optionally an Arabic decimal separator and more digits, then only whitespace, then a percent sign |
| DocxText.PercentsNoSign | src/utils/docx/generatePeriodicMalaaDocx.js:42 | a text without a percent sign passes the percent step unchanged |
| DocxText.DigitThenSignMatches | src/utils/docx/generatePeriodicMalaaDocx.js:42 | a digit directly followed by a percent sign starts a match |
| DocxText.PercentsNoDigitBeforeSign | src/utils/docx/generatePeriodicMalaaDocx.js:42 | after the percent step no percent sign follows a digit, either directly or across whitespace |
| DocxText.NormalizeParagraphText | src/utils/docx/generatePeriodicMalaaDocx.js:34-37 | none or the empty text gives the empty text; the effect of each rewrite step is stated by the lemmas on the decimal, percent and parenthesis steps |
| DocxText.PercentRewrite | src/utils/docx/generatePeriodicMalaaDocx.js:42 | at a number followed by whitespace and a percent sign, the number is copied unchanged, the whitespace and the sign are replaced by one Arabic percent sign, and the rest of the text is processed after the sign |
| DocxText.PercentMatchAt | src/utils/docx/generatePeriodicMalaaDocx.js:42 | a number of digits, optionally an Arabic decimal separator and more digits, then whitespace, then a percent sign, is the match found at its first digit |
| DocxText.PercentsSkip | src/utils/docx/generatePeriodicMalaaDocx.js:42 | a character that is not a digit is copied and the scan moves on by one |
| DocxText.PercentsCopyNonDigits | src/utils/docx/generatePeriodicMalaaDocx.js:42 | a run of non-digits is copied unchanged and the scan resumes after it |
| DocxText.NoDecimalDot | src/utils/docx/generatePeriodicMalaaDocx.js:39 | a text without a dot is left unchanged by the decimal step |
| DocxText.OneDecimalDot | src/utils/docx/generatePeriodicMalaaDocx.js:39 | a text whose only dot sits between two digits has exactly that dot replaced by the Arabic decimal separator |
| DocxText.SwapParensNoParens | src/utils/docx/generatePeriodicMalaaDocx.js:46 | a text without parentheses is left unchanged by the parenthesis step |
| DocxText.NormalizeSteps | src/utils/docx/generatePeriodicMalaaDocx.js:34-49 | a non-empty paragraph is normalised by the decimal step, then the percent step, then the parenthesis step |
| DocxText.NormalizeWholePercent | src/utils/docx/generatePeriodicMalaaDocx.js:34-49 | a paragraph holding a whole number, whitespace and a percent sign becomes the same digits followed by the Arabic percent sign |
| DocxText.NormalizeDecimalPercent | src/utils/docx/generatePeriodicMalaaDocx.js:34-49 | a paragraph holding a decimal number with a dot, whitespace and a percent sign becomes the same digits around the Arabic decimal separator, followed by the Arabic percent sign |
| DocxText.NormalizePlainText | src/utils/docx/generatePeriodicMalaaDocx.js:34-49 | a text without dots, percent signs and parentheses is left unchanged |
| DocxText.NormalizeDecimalExample | src/utils/docx/generatePeriodicMalaaDocx.js:38-42 | 72.5% reads with the Arabic decimal separator and the Arabic percent sign |
| DocxText.NormalizeParenFigure | src/utils/docx/generatePeriodicMalaaDocx.js:38-46 | a whole number in parentheses followed by whitespace and a percent sign, such as (73 %), keeps its digits, has its whitespace and sign replaced by the Arabic percent sign, and has its two parentheses swapped |
| DocxText.ArabicIndic | src/utils/docx/generatePeriodicMalaaDocx.js:51-57 | each ASCII digit becomes its Arabic-Indic digit, other characters stay, and the length is kept |
| DocxText.ArabicIndicNumber | src/utils/docx/generatePeriodicMalaaDocx.js:51-57 | a number renders as Arabic-Indic digits only, as many as its decimal digits |
| DocxText.ArabicIndicNumberRoundTrip | src/utils/docx/generatePeriodicMalaaDocx.js:51-57 | mapping the digits back recovers the decimal rendering |
| DocxText.SectionTitle | src/utils/docx/generatePeriodicMalaaDocx.js:59 | the title is the Arabic-Indic number, a dot and a space, then the text |
| DocxText.SectionTitleExample | src/utils/docx/generatePeriodicMalaaDocx.js:59 | section 12 is titled with the two Arabic-Indic digits one and two |
| SpecialistsList.DemoDocScore | src/pages/portal/supervisor/SpecialistsList.jsx:61 | the demo document score lies in [77, 95] |
| SpecialistsList.DemoDiagScore | src/pages/portal/supervisor/SpecialistsList.jsx:65 | the demo diagnostic score lies in [75, 93] |
| SpecialistsList.DemoComplianceScore | src/pages/portal/supervisor/SpecialistsList.jsx:69 | the demo compliance score lies in [82, 94] |
| SpecialistsList.DiagnosisTime | src/pages/portal/supervisor/SpecialistsList.jsx:81 | the diagnosis time lies in [16, 28], inside the clamp to [8, 60] |
| SpecialistsList.DrawScore | src/pages/portal/supervisor/SpecialistsList.jsx:57 | one demo score takes the generator's next draw |
| SpecialistsList.DrawDemoScores | src/pages/portal/supervisor/SpecialistsList.jsx:59-69 | the demo scores take draws 0, 1 and 2 of a fresh generator, in document, diagnostic, compliance order |
| SpecialistsList.DeriveSpecialist | src/pages/portal/supervisor/SpecialistsList.jsx:47-86 | hashing the seed text and drawing as each value is computed gives the row of the specialist |
| SpecialistsList.Specialists | src/pages/portal/supervisor/SpecialistsList.jsx:44-88 | there is one row per specialist user |
| SpecialistsList.RowBounds | src/pages/portal/supervisor/SpecialistsList.jsx:71-81 | the completion rate is a percentage (0 without cases), the diagnosis time lies in [16, 28], and the overall score lies between the least and greatest score |
| SpecialistsList.AuditedScoreBounds | src/pages/portal/supervisor/SpecialistsList.jsx:59-69 | with audits, each score is the rounded mean of that score over exactly the specialist's audits, and lies in [0, 100] when the audits' scores do |
| SpecialistsList.KpiMeanBounds | src/pages/portal/supervisor/SpecialistsList.jsx:96-100 | an empty selection gives 0, and otherwise the mean lies within the bounds of the values |
| SpecialistsList.BarDataCorrect | src/pages/portal/supervisor/SpecialistsList.jsx:103-111 | the bars show every specialist once, whatever governorate is selected, highest score first, with ties in list order |
| NewCase.CalculateAge | src/pages/portal/specialist/NewCase.jsx:33-43 | an empty birth date gives 0 and an unparsable one no number |
| NewCase.AgeCountsBirthdays | src/pages/portal/specialist/NewCase.jsx:35-42 | the age counts the birthdays passed: the one of year birth plus age is on or before today, the next one after |
| NewCase.AgeUnique | src/pages/portal/specialist/NewCase.jsx:35-42 | any number of years with those two properties is the computed age |
| NewCase.AgeNonNegative | src/pages/portal/specialist/NewCase.jsx:35-42 | a birth date not after today gives a non-negative age |
| NewCase.Validate | src/pages/portal/specialist/NewCase.jsx:52-67 | exactly the missing fields are flagged, each with its message, and the form is valid exactly when none is missing |
| NewCase.FlagStep | src/pages/portal/specialist/NewCase.jsx:54-63 | flagging one more field extends the checked fields by that field |
| NewCase.TextFieldMissingIffBlank | src/pages/portal/specialist/NewCase.jsx:54-63 | a free-text field is flagged exactly when it holds only whitespace |
| NewCase.SelectNotTrimmed | src/pages/portal/specialist/NewCase.jsx:55 | a whitespace-only gender value is not flagged |
| NewCase.CorrespondenceNumberIgnored | src/pages/portal/specialist/NewCase.jsx:52-67 | the correspondence number never affects the check |
| NewCase.CreatedCaseDefaults | src/pages/portal/specialist/NewCase.jsx:75-83 | the created case is pending evaluation, unclassified, in a public school, with no attachments of seven, the computed age, the generated id and the creation time |
| NewCase.CreatedCaseKeepsForm | src/pages/portal/specialist/NewCase.jsx:76-77 | the created case keeps every form field, the correspondence number included |
| NewCase.CreatedNotification | src/pages/portal/specialist/NewCase.jsx:85-91 | the notification is an unread new-case notice to the supervisor naming the case |
| NewCase.Submit | src/pages/portal/specialist/NewCase.jsx:69-95 | a failing form changes no store; otherwise the case is appended to the cases and the notification put first among the notifications |
| SupervisorDashboard.SpecialistsCountCorrect | src/pages/portal/supervisor/Dashboard.jsx:99-102 | the count is of the specialists of the selected governorate, or of all when none is selected, and selecting never raises it |
| SupervisorDashboard.ReportDays | src/pages/portal/supervisor/Dashboard.jsx:108-116 | a delay exists only when both dates parse, and is then non-negative |
| SupervisorDashboard.ReportDiffsOfQualifying | src/pages/portal/supervisor/Dashboard.jsx:107-117 | the delays are those of the qualifying cases, one each, in case order |
| SupervisorDashboard.AvgReportDaysBounds | src/pages/portal/supervisor/Dashboard.jsx:119-120 | with no qualifying case the mean is 0, and otherwise it lies within any bounds on the delays |
| SupervisorDashboard.AvgReportDaysNonNegative | src/pages/portal/supervisor/Dashboard.jsx:106-121 | the mean delay is never negative |
| SupervisorDashboard.AuditedCases | src/pages/portal/supervisor/Dashboard.jsx:123-128 | each kept case is paired with the last audit stored for it |
| SupervisorDashboard.AuditedCasesKeepOrder | src/pages/portal/supervisor/Dashboard.jsx:123-128 | the audited cases are the filtered cases that have an audit, in the filtered order |
| SupervisorDashboard.IsNoMajorIff | src/pages/portal/supervisor/Dashboard.jsx:133-142 | an audit has no major note exactly when it is completed, its trimmed general notes are under 120 characters and no trimmed axis note reaches 160 |
| SupervisorDashboard.NoMajorNotesPct | src/pages/portal/supervisor/Dashboard.jsx:130-146 | the percentage lies in [0, 100] |
| SupervisorDashboard.NoMajorNotesPctExtremes | src/pages/portal/supervisor/Dashboard.jsx:144-145 | the percentage is 0 when no audit is free of major notes and 100 when all are |
| SupervisorDashboard.RadarAverages | src/pages/portal/supervisor/Dashboard.jsx:297-304 | there is one value per axis, with its key and label, in [0, 100] |
| SupervisorDashboard.RadarAverageBounds | src/pages/portal/supervisor/Dashboard.jsx:300-302 | with no rows every axis is 0, and with every row in [lo, hi] the value lies in [lo, hi] |
| SupervisorDashboard.RadarOfGovernorateRows | src/pages/portal/supervisor/Dashboard.jsx:299-302 | on the eleven governorate rows each radar value is the rounded national mean of the axis |
| SupervisorDashboard.DeselectedGovernorateRow | src/pages/portal/supervisor/Dashboard.jsx:297-304 | as written, with a governorate selected, every other governorate's radar row is the row of no cases |
| SupervisorDashboard.NationalRadar | src/pages/portal/supervisor/Dashboard.jsx:297-304 | the national radar has one value per axis in [0, 100] |
| SupervisorDashboard.NationalRadarIgnoresGovernorate | src/pages/portal/supervisor/Dashboard.jsx:298 | the national radar does not depend on the selected governorate |
| SupervisorDashboard.NationalRadarWithoutGovernorate | src/pages/portal/supervisor/Dashboard.jsx:297-304 | with no governorate selected, the national radar equals the radar computed from the report's filtered cases, as written |

## Left out

- Browser storage: the localStorage and JSON layer of `src/data/storage.js:4-44` (`get`, `set`, `remove`, `clear`) and each store's `getAll`/`save` are I/O. A store is its `items` field, and a missing key is an empty store.
- Users store: `usersStorage.update` and `findByUsername` are the generic `EntityStore.Update` and `FindBy`. The user store's own field shapes are not modelled.
- Clock, ids and date parsing: `new Date()`, `Date.now`, `Math.random` ids, `toISOString`, `subMonths` and the parse of date strings are parameters. These are `today`, `now`, the generated ids, and each date string's `DateStr` parse with its local calendar fields.
- JSON serialisation: a NaN age is stored as `null`, as `JSON.stringify` writes it. The round trip through localStorage itself is not modelled.
- PeriodicReport.CreatedTime: a comparator that reads an unparsable or missing date returns NaN, which leaves the engine's order unspecified. The model reads such a date as time 0, and the newest-first lemma is about that key.
- Arith.RoundDiv: rounding is exact on integers. Binary floating point can round an exact-half quotient or a tenths percentage differently from the exact value.
- Sort order of specialists in `src/pages/portal/supervisor/AuditCases.jsx:45`: `localeCompare` collation is not modelled. The specialist options are left out with the rest of the option lists, except for the reviewer options.
- AuditCaseList.ListTime: in the list's two orderings, a non-empty unparsable `createdAt` makes `new Date(…).getTime()` NaN, which leaves the engine's order unspecified. The model reads such a date as time 0, the same choice as for the report.
- PeriodicReport.CountByName, PeriodicReport.DistributionRows, PeriodicReport.ComputeDistribution: the source guards the count with `counts[v] !== undefined` on a plain object. A case value that names an inherited `Object` member passes that guard, for example "constructor", "toString" or "hasOwnProperty". Then `+= 1` creates a new own key whose value is a string, and `Object.entries` emits an extra row with a non-numeric value and a NaN percent. The model counts only the listed names, so it has no such row. Its contracts of exactly the listed names and one row per listed name hold only for values that are not inherited `Object` member names. The referral source is free text in the form, so such a value can reach the report.
- PeriodicReport.DistributionRows: the rows follow the list order only when no name looks like an array index ("0", "1", …). `Object.entries` lists such keys first, in numeric order. The model assumes the programme names, which it takes as a parameter, are not such strings.
- PeriodicReport.ComputeDistribution: it requires distinct names, because `Object.fromEntries` merges duplicates into one counter. The fixed referral sources are proved distinct. Its rows are in list order under the same assumption on index-like names as DistributionRows.
- `EDUCATION_PROGRAMS` is not exported by `src/data/constants.js`, so it is a parameter.
- `Viewer`: the viewer's role tests are its fields. `Viewer.isSpecialist` stands for the auth context's `user?.role === ROLES.SPECIALIST` (`src/context/AuthContext.jsx:44`). `isSectionHead` is not provided by the auth context, so with the context as shipped, every call to it would fail: `src/pages/portal/supervisor/AuditCases.jsx:143`, `:151`, `:162`, `:264` and `:286`, `src/pages/portal/AuditCaseReview.jsx:141` and `:344`, and `src/pages/portal/supervisor/Dashboard.jsx:529`. These pages would throw while rendering. The AuditCases, CentralReview and SupervisorDashboard models assume the pages render with a working predicate; AuditCases takes its answer as `Viewer.isSectionHead`.
- CentralReview.ReviewBase and CentralReview.UpsertReview take the case's specialist id as the parameter `specialistId`. The page computes it as `specialistForCase`: the first specialist whose governorate is the case's, and none when the case has no governorate (`src/pages/portal/AuditCaseReview.jsx:67-70`). That lookup is not modelled.
- SupervisorDashboard.IsNoMajor: the "completed" status literal of `Dashboard.jsx` is garbled in the source, so it is the parameter `completedLabel`. Likewise the radar's axis titles come from its `axes` parameter.
- SupervisorDashboard.IsNoMajor: `Object.values` over the axis notes is read as the notes stored under the map's keys.
- Dashboard copies: the dashboard's `filteredCases`, `governorateAxisAverages` and ranking are the report's `FilterCasesForReport`, `ComputeGovernorateAxisAverages` and `Rank`. Its gender, program, referral and per-governorate specialist counts and its education-structure cards (including the inclusion-or-special count) are not modelled separately.
- Scores are integers: a stored score that is not a number, or that is missing, reads as 0 (`|| 0`).
- CsvExport.EscapeCsvCell: a cell is the text `String(value)` of the value, or none for `null`/`undefined`. Converting other JavaScript values to text is not modelled.
- DocxText.PercentMatch: the regular expression is modelled by its greedy reading, which is its only match. General backtracking is not modelled.
- DocxText: the `docx` document, paragraph and table construction and `Packer` are output formatting.
- SpecialistsList.Row: which draw the diagnosis time takes with no audits (the fourth) follows the page's order. The relative order of rows of different specialists does not matter, because each row has its own generator.
- NewCase: `handleChange`, the initial form state, the loading flag and the navigation after submit are UI state.
- Rendering: all JSX, React hooks, charts, routing, PDF export and the badge variants are presentation.

## Findings

| source | as written | input that shows it | evidently intended | confidence | as-written member | corrected member |
|---|---|---|---|---|---|---|
| src/pages/portal/supervisor/Dashboard.jsx:297-304 | the radar averages the governorate rows computed from the cases after every filter, the governorate filter included | select governorate "1": every other governorate's radar row becomes the row of a governorate without cases | a national average not affected by the governorate filter, as the comment on line 298 says | not executed | SupervisorDashboard.DeselectedGovernorateRow | SupervisorDashboard.NationalRadarIgnoresGovernorate |
