# ObUp core in Dafny

ObUp is a warehouse productivity tool. Each worker is credited with work time from the timestamped scans of three warehouse stages:

- picking (拣货), sorting (分拨) and packing (打包);
- the packing stage is split into single-item (单品) and multi-item orders.

Each worker is also credited with the attendance time recorded by IN/OUT punches. The worker names written by the scanning systems are matched against the names of the attendance system.

This project models the computational core of the backend and the frontend and proves what that core promises:

- **Stage reports.** Rows of a stage export are normalised: the timestamp is parsed, the operator trimmed, commas stripped from quantities, and the packing category derived. The rows are then checked against the 24-hour work-day window. A coverage ratio and a pass/warn/reject status are computed.
- **Work segments.** The in-window scans of each operator are turned into alternating work and idle segments. EWH is the effective work hours: the sum of pauses between consecutive scans that do not exceed the gap threshold. EWH and units per hour follow from it.
- **Attendance.** IN/OUT punches are paired into intervals, and each staff member's intervals are merged into attendance hours.
- **Header recognition.** Columns are looked up by alias, and an uploaded file is classified by its header markers.
- **Combined report.** The per-stage reports are combined: the work of all stages is merged, the idle time is its complement in the window, and the status and coverage are reduced.
- **Timeline rows.** Same-kind segments are coalesced on a minute scale, and idle time is split against attendance windows.
- **Identity resolution.** This covers:
  - canonical name and account keys, and display names;
  - the similarity measures (token Jaccard, bigram Dice, two-row Levenshtein) and the combined name score;
  - fuzzy acceptance of a best candidate, greedy one-to-one assignment, and manual links;
  - the composite score, the work ratio and the dominant stage.

Timestamps and units are `int`, in milliseconds or minutes. Ratios, hours and scores are exact `real`s. Strings are `seq<char>`. Sorting with a comparator is modelled by a stable insertion sort (`Sorting.SortBy`), because JavaScript's `Array.prototype.sort` is stable. Timestamp parsing and `Number(...)` are abstract function parameters.

Modules follow the program:

- `Text`: JavaScript `trim`, lower/upper case, `includes`, `split`.
- `Sorting`, `Grouping`: stable sort; insertion-ordered `Map` grouping.
- `Intervals`: `mergeIntervals`, `mergeAttendanceSegments`, `mergeWorkSegments`, the idle complement.
- `Segments`: `buildSegmentsForEvents`, `computeEwhForEvents`.
- `Normalize`, `StageReport`: `computeReport` and `parsePackingFile`.
- `Headers`: `findColumn`, `detectFileKind`.
- `Attendance`: punch pairing, `buildAttendanceReportFromPunches`, `chunkArray`.
- `Combined`: `buildCombinedReport`.
- `Timeline`: `mergeSegments` and `applyAttendanceWindows` inside `buildTimelineRowsFromReport`.
- `Names`, `Similarity`, `Matching`: the identity resolver and the per-row figures of `buildDetailRows`.

Three behaviours of the code worth knowing:

- A rejected stage report still carries its per-operator statistics, segments and KPIs. The code computes them before it decides the status (backend/server.js:313-376).
- Parse failures only add a warning and never change the status.
- The fuzzy runner-up is the best score among all other candidates. This is what the scan at frontend/src/App.jsx:4637-4645 computes.

## Model

| member | source | states |
|---|---|---|
| Text.Trim | backend/server.js:283 | the result has no leading or trailing whitespace and is no longer than the input (JavaScript `String.prototype.trim`) |
| Text.TrimStartStrips | backend/server.js:283 | every character removed from the front is whitespace |
| Text.TrimEndStrips | backend/server.js:283 | every character removed from the back is whitespace |
| Sorting.SortBy | backend/server.js:310-312 | the stable sort by a key is sorted and a permutation of its input |
| Sorting.InsertSorted | backend/server.js:310-312 | inserting into a sorted sequence keeps it sorted |
| Sorting.SortBySorted | backend/server.js:660 | sorting an already sorted list leaves it unchanged |
| Sorting.SumOfSortBy | backend/server.js:660-664 | summing units over the sorted list equals summing over the unsorted one |
| Sorting.SortStrings | frontend/src/App.jsx:4428 | `[...tokens].sort()` yields a permutation of the tokens ordered character by character |
| Sorting.LexLessAsymmetric | frontend/src/App.jsx:4428 | the default string order is asymmetric |
| Grouping.GroupBy | backend/server.js:305-308 | the `byOperator` map has exactly the keys of the scans, in first-seen order without duplicates, and each key's list is the scans with that key in input order |
| Grouping.KeysFacts | backend/server.js:305-308 | the key order has no duplicates and contains exactly the keys that occur |
| Grouping.GroupSumsPartition | backend/server.js:319-358 | summing a per-group total over all groups gives the total over all scans (`totalUnitsAll`) |
| Intervals.MergeIntervals | frontend/src/App.jsx:467-481 | the output is sorted by start, each start lies after the previous end, and its union equals the input's. For proper intervals the output is canonical and its total length is at most the input's. Already canonical input is returned unchanged, so merging is idempotent |
| Intervals.MergeSorted | backend/server.js:425-439 | `mergeAttendanceSegments` on a start-sorted list establishes the merge invariant: canonical output with the same union as the input |
| Intervals.SortedFacts | frontend/src/App.jsx:469 | sorting by start keeps the union, properness and total length |
| Intervals.MergeWorkSegments | frontend/src/App.jsx:706-724 | the output is canonical and covers exactly the points of the input intervals with `end > start`. Its total length is at most theirs. Canonical input is returned unchanged (idempotent) |
| Intervals.ProperOnlyCovers | frontend/src/App.jsx:709 | after the filter, a point is covered iff some proper input interval covers it |
| Intervals.IdleSegments | frontend/src/App.jsx:783-791 | the cursor walk emits exactly the gaps of the merged work within the window |
| Intervals.IdleIsComplement | frontend/src/App.jsx:783-791 | for canonical work inside the window, the idle list is canonical and inside the window. It is disjoint from the work and covers every uncovered window point. Idle plus work lengths equal the window length |
| Intervals.GapsCoverIdle | frontend/src/App.jsx:783-791 | every window point not covered by work is covered by an idle gap |
| Intervals.GapsAreIdle | frontend/src/App.jsx:783-791 | no point inside an idle gap is covered by work |
| Intervals.CanonicalUnique | frontend/src/App.jsx:467-481 | two canonical interval lists with the same union are equal, so merge results are unique |
| Intervals.CoversPermutation | frontend/src/App.jsx:469 | reordering intervals does not change their union |
| Segments.BuildSegments | backend/server.js:180-266 | on the time-sorted scans: `ewhMs` is the sum of the pauses `0 < d <= gapMs` and equals the total work duration. With idle segments on, the idle segments are exactly the leading, inter-scan (gap over the threshold) and trailing gaps. For in-window scans the segments tile `[start, end)`; they are ordered and of positive length when `gapMs >= 0`. Each work segment spans a run of scans and carries their unit sum; with category splitting a category change closes the run |
| Segments.BuildSegmentsSorted | backend/server.js:189-263 | the same facts for an already sorted list: EWH, idle list, chain from origin to terminal, order, positivity, work spans |
| Segments.Scan | backend/server.js:195-249 | the `forEach` over the scans computes exactly the stepwise run of the segment builder |
| Segments.RunInv | backend/server.js:195-249 | every prefix run keeps the builder invariant: EWH so far, idle list so far, shape and spans |
| Segments.WindowEnds | backend/server.js:189-263 | when all scans are in the window the chain starts at `start` and ends at `end` |
| Segments.EwhBounds | backend/server.js:205-208 | EWH is at least 0 and at most last minus first timestamp |
| Segments.EwhPrefix | backend/server.js:205-208 | extending the scans by one adds exactly that pause's credit |
| Segments.ComputeEwhForEvents | backend/server.js:405-417 | the hours are the EWH of the sorted scans divided by 3.6e6: 0 for no scans, otherwise between 0 and the span in hours |
| Segments.SumShortPauses | backend/server.js:409-415 | the index loop sums exactly the credited pauses |
| Normalize.StripCommas | backend/server.js:288 | the result has no comma and a comma-free string is unchanged |
| Normalize.CategoryOf | backend/server.js:633-634 | the category is single iff the trimmed label contains 单品 |
| Normalize.NormalizeRow | backend/server.js:277-296 | a row is kept iff its timestamp parses and its trimmed operator is non-empty. A kept row carries the parsed time, the trimmed operator, the comma-stripped quantity (1 when not a finite number), `inWindow` iff `start <= ts < start + 24h`, and for packing its category |
| Normalize.NormalizeRows | backend/server.js:277-296 | the loop keeps exactly the normalised rows, counts exactly the failures, and tracks the minimum and maximum timestamps, which are absent iff nothing was kept |
| Normalize.KeptPlusFailures | backend/server.js:298 | kept rows plus parse failures equal the number of rows |
| Normalize.InWindowEventsInside | backend/server.js:299 | every in-window scan lies in `[start, start + 24h)`, has a non-empty operator, and has a category exactly for packing |
| Normalize.CoverageThresholds | backend/server.js:301-362 | the 70% and 90% coverage tests as integer comparisons; coverage lies in [0,1] |
| Normalize.Validate | backend/server.js:350-376 | reject iff there are no rows or coverage is under 70%; warn iff not rejected and coverage is under 90%, or the span exceeds 24h10m, or there are fewer than 100 rows; pass otherwise. Errors are empty iff not rejected. The coverage warning appears iff there are rows and coverage lies in [70%, 90%). A parse-failure warning appears iff there were failures, and it never changes the status |
| StageReport.PerHour | backend/server.js:339 | units per hour exist iff the EWH hours are positive, and then rate times hours equals units |
| StageReport.OperatorReport | backend/server.js:319-346 | an operator's total units are the sum over its scans. Its EWH hours are the EWH of its sorted scans and also the work duration of its segments, and its rate is `PerHour` of both. Its idle segments are the gaps of the sorted scans. For packing it carries the single/multi units and EWH hours of `PackingOf` (the unit sum and EWH of each category's time-sorted scans); otherwise no split |
| StageReport.PackingFigures | backend/server.js:674-679 | single and multi units are the unit sums of each category, and their EWH hours are the EWH of each category's scans. When every scan has a category, the two unit sums add up to the total |
| StageReport.CategorySplit | backend/server.js:674-677 | single-item units plus multi-item units equal all units when every scan has a category |
| StageReport.StatsLoop | backend/server.js:318-358 | after the loop every operator has its stat and its segments, `totalUnitsAll` is the sum of the per-operator unit sums, and `totalEwhHoursAll` is the sum of their EWH hours |
| StageReport.BuildStageReport | backend/server.js:268-403 | the counts, coverage and status follow the ladder above; `minTs` and `maxTs` are the earliest and latest kept timestamps, in or out of the window (absent iff no row is kept), and the span is their difference or 0. The coverage, span and parse-failure warnings appear exactly when due. The stats are the stable descending-units sort of one stat per distinct in-window operator in first-seen order, each with its exact figures (packing split included). `totalUnitsAll` is the sum of in-window units and `avgUph` is `PerHour` of the totals. The segments map has exactly the operators |
| StageReport.StatsMembership | backend/server.js:362 | sorting the stats by units keeps one correct stat per operator |
| Headers.FirstHit | backend/server.js:142-146 | `findIndex`: the first matching header, or -1 when none matches |
| Headers.FindColumn | backend/server.js:139-150 | the result is -1 iff no trimmed header contains any alias; a hit contains some alias |
| Headers.ExactWins | backend/server.js:139-150 | when the earliest alias with an exact match is alias j, the result is the first header equal to alias j |
| Headers.FallbackWhenNoExact | backend/server.js:139-150 | with no exact match at all the result is the substring pass |
| Headers.Classify | backend/server.js:165-171 | one stage marker or attendance alone gives that kind; two or more stage markers give mixed; otherwise unknown |
| Headers.DetectFileKind | backend/server.js:152-172 | a single kind iff exactly one marker set is present; mixed iff at least two stage marker sets are present |
| Attendance.ChunkArray | backend/server.js:419-423 | the chunks concatenate back to the list, none is empty, none exceeds the size, and all but the last are full |
| Attendance.ActionOf | backend/server.js:491 | the action is IN iff the trimmed upper-cased text is "IN", and OUT iff it is "OUT" |
| Attendance.PairedFacts | backend/server.js:502-523 | on time-sorted punches every emitted interval is proper, intervals do not overlap and are sorted by start. Each starts at an IN punch and ends at an OUT punch or at the window end |
| Attendance.PairPunches | backend/server.js:507-523 | the loop computes the pairing walk: the first IN opens, later INs are ignored, an OUT emits only when after the open IN and always clears it, and an IN still open emits up to the window end |
| Attendance.WalkStep | backend/server.js:507-519 | one punch step keeps the pairing invariant |
| Attendance.Usable | backend/server.js:487-495 | the usable punches are at most the rows, and every one has a non-empty staff id |
| Attendance.DisplayName | backend/server.js:531 | the display name is the employee name when non-empty, otherwise the staff id |
| Attendance.StaffIntervals | backend/server.js:504-527 | a staff member's merged intervals are canonical and have the union of the raw pairs, with total length at most the raw total; they are empty iff no pair was emitted |
| Attendance.StaffLoop | backend/server.js:502-544 | every staff member with intervals gets one stat with merged hours. The segments map keeps the last staff member per display name. `totalHours` is the sum of the stats' hours |
| Attendance.BuildAttendanceReport | backend/server.js:441-566 | no punches gives the "no records" rejection; no staff member with an interval gives the "no valid punches" rejection. Otherwise the report carries the per-staff stats, segments and total hours above, with `totalCount` the number of punches |
| Combined.CollectEntries | frontend/src/App.jsx:734-769 | the operator order is the first-seen order over all stage stats, and each operator's entry sums its units per stage and gathers its work segments |
| Combined.EntryUnitsSum | frontend/src/App.jsx:750-794 | an operator's total units are the sum of its units over all stages |
| Combined.OperatorRow | frontend/src/App.jsx:776-812 | the row's merged work is the merge of all its stage work. EWH hours are the merged length over 3.6e6, and total units are picking + sorting + packing. The segments are the stage work followed by the idle gaps in the window |
| Combined.CombinedIdleIsComplement | frontend/src/App.jsx:783-793 | the combined idle segments are exactly the complement of the merged work in the window, and idle plus merged lengths equal the window |
| Combined.OverlapExample | frontend/src/App.jsx:776-805 | picking 08:00-09:00 with 60 units plus sorting 08:30-09:30 with 40 units gives 1.5 EWH hours and 100 units |
| Combined.MostSevere | frontend/src/App.jsx:821-830 | the combined status is the most severe present status, or pass when none is present |
| Combined.Min3 | frontend/src/App.jsx:831-835 | the coverage is the minimum of the three ratios, with absent stages counted as 1 |
| Combined.TotalUnits | frontend/src/App.jsx:814 | `totalUnitsAll` equals the units of every stat of every stage |
| Combined.BuildCombinedReport | frontend/src/App.jsx:726-855 | the result is absent iff all three reports are absent. Otherwise the window comes from the sorting, picking or packing report, in that order. Status and coverage are reduced as above, and the rows are the stable descending-units sort of one row per operator in first-seen order, with the facts above. The KPIs are the sums of the rows |
| Timeline.StartMinute | frontend/src/App.jsx:605 | the start minute is the day start plus the whole minutes elapsed since the base (rounded down); a time before the base gives the day start |
| Timeline.EndMinute | frontend/src/App.jsx:606 | the end minute is the day start plus the minutes elapsed since the base rounded up; a time at or before the base gives the day start |
| Timeline.MinutesOrdered | frontend/src/App.jsx:605-606 | a segment with start <= end keeps start minute <= end minute |
| Timeline.CoalescePass | frontend/src/App.jsx:546-561 | the first pass computes the coalescing of same-kind neighbours within the gap |
| Timeline.CoalesceApart | frontend/src/App.jsx:546-596 | after a coalescing pass no two neighbours can be coalesced, and the list did not grow |
| Timeline.CoalesceUnits | frontend/src/App.jsx:552-557 | a coalescing pass that adds units keeps the total work units |
| Timeline.BridgePass | frontend/src/App.jsx:563-583 | the second pass computes the bridging of short idle segments between work |
| Timeline.BridgeUnits | frontend/src/App.jsx:563-583 | bridging keeps the total work units |
| Timeline.MergeSegments | frontend/src/App.jsx:542-598 | the merged timeline keeps the total work units, leaves no two coalescible neighbours, and is no longer than the input (last pass with units added; see Findings) |
| Timeline.MergeSegmentsLosesUnits | frontend/src/App.jsx:584-596 | as written, picking 0-10 (5 units), idle 10-20 and picking 20-30 (7 units) end as one picking segment 0-30 with 5 units instead of 12 |
| Timeline.ApplyAttendanceWindows | frontend/src/App.jsx:649-682 | without windows the list is unchanged; otherwise each idle segment is replaced by its split against the windows |
| Timeline.SplitIdle | frontend/src/App.jsx:657-679 | the cursor walk over the windows computes the split of one idle segment |
| Timeline.SplitIsPartition | frontend/src/App.jsx:657-679 | for canonical windows the pieces tile the idle segment with positive lengths. Attendance-idle pieces have no units and lie inside a window; the other pieces keep the segment's kind and units and lie outside every window |
| Names.NormalizeName | frontend/src/App.jsx:4310-4318 | the canonical name contains only a-z, CJK ideographs and single interior spaces, with no leading or trailing space |
| Names.NormalizeIdempotent | frontend/src/App.jsx:4310-4318 | normalising a canonical name changes nothing |
| Names.NormalizeExample | frontend/src/App.jsx:4310-4318 | "Vanessa (OB#102)" and "vanessa" get the same key "vanessa" |
| Names.NoDigitLeft | frontend/src/App.jsx:4315-4316 | after the character filter no digit is left, so the digit-stripping step never changes anything |
| Names.NormalizeWorkKey | frontend/src/App.jsx:4330-4338 | blank input gives the empty key. Account-like input (`ob`, letters, optional `#`, digits, once spaces are removed) gives that space-free text in lower case; anything else gives a canonical name |
| Names.WorkKeyIdempotent | frontend/src/App.jsx:4330-4338 | the work key of a work key is itself |
| Names.NameNotAccount | frontend/src/App.jsx:4330-4338 | a canonical name is never account-like, so the two branches do not mix |
| Names.ToDisplayName | frontend/src/App.jsx:4320-4328 | the display name is a prefix of the trimmed name, trimmed and without a trailing parenthetical that contains a digit; a name without such a tail is kept whole |
| Names.DisplayExample | frontend/src/App.jsx:4320-4328 | "Vanessa (OB#102)" displays as "Vanessa" |
| Names.NameTokens | frontend/src/App.jsx:4340-4344 | the tokens are words that join with single spaces back to the canonical name |
| Similarity.TokenJaccard | frontend/src/App.jsx:4346-4356 | the Jaccard index of the token sets lies in [0,1] |
| Similarity.JaccardRatio | frontend/src/App.jsx:4346-4356 | the index times the union size equals the intersection size |
| Similarity.JaccardSymmetric | frontend/src/App.jsx:4346-4356 | the index is symmetric |
| Similarity.JaccardOne | frontend/src/App.jsx:4346-4356 | for non-empty token lists the index is 1 iff the token sets are equal |
| Similarity.Bigrams | frontend/src/App.jsx:4358-4365 | the bigrams are the two-character windows of the space-free text (the text itself when it is one character long) |
| Similarity.CountBigrams | frontend/src/App.jsx:4371-4374 | the counts map holds each bigram's multiplicity |
| Similarity.MatchBigrams | frontend/src/App.jsx:4375-4380 | decrementing counts finds exactly the size of the multiset intersection |
| Similarity.DiceSimilarity | frontend/src/App.jsx:4367-4382 | the method computes the Dice coefficient, which lies in [0,1] |
| Similarity.DiceSymmetric | frontend/src/App.jsx:4367-4382 | the Dice coefficient is symmetric |
| Similarity.DiceSelf | frontend/src/App.jsx:4367-4382 | a text with bigrams has Dice 1 against itself |
| Similarity.LevenshteinDistance | frontend/src/App.jsx:4384-4407 | the two-row dynamic program computes the edit distance |
| Similarity.EditZero | frontend/src/App.jsx:4384-4407 | distance 0 implies equal strings |
| Similarity.EditSelf | frontend/src/App.jsx:4384-4407 | equal strings have distance 0 |
| Similarity.EditSymmetric | frontend/src/App.jsx:4384-4407 | the edit distance is symmetric |
| Similarity.EditUpper | frontend/src/App.jsx:4384-4407 | the edit distance is at most the longer length |
| Similarity.EditLower | frontend/src/App.jsx:4384-4407 | the edit distance is at least the length difference |
| Similarity.LevenshteinSimilarity | frontend/src/App.jsx:4409-4416 | the similarity lies in [0,1]. It is 1 iff the space-free texts are equal and non-empty, and 0 when either is empty |
| Similarity.LevenshteinSymmetric | frontend/src/App.jsx:4409-4416 | the similarity is symmetric |
| Similarity.LevenshteinPrefix | frontend/src/App.jsx:4409-4416 | a prefix scores at least its share of the longer text |
| Similarity.NameSimilarityScore | frontend/src/App.jsx:4418-4436 | the score lies in [0,1]. It is 0 when either name normalises to empty, and 1 when the canonical names are equal and non-empty |
| Similarity.ScoreSymmetric | frontend/src/App.jsx:4418-4436 | the name score is symmetric |
| Similarity.ReorderedScore | frontend/src/App.jsx:4424-4425 | different canonical names with the same sorted tokens score 0.96 |
| Similarity.PrefixBoost | frontend/src/App.jsx:4430-4435 | when one canonical name starts with the other, the shorter having at least 4 characters, the score gets the 0.08 boost: it is 1 or at least Levenshtein + 0.08 |
| Similarity.Measures | frontend/src/App.jsx:4426-4429 | the combined measure lies in [0,1] and is at least the Levenshtein similarity |
| Matching.ApplyAccountLinkChange | frontend/src/App.jsx:1963-1974 | with an empty target only the source is removed. Otherwise the source maps to the target, no other key maps to the target, and every other key is kept with its value unless it mapped to the target |
| Matching.LinkChangeKeepsOneToOne | frontend/src/App.jsx:2033-2046 | a one-to-one link map stays one-to-one after a change |
| Matching.LinkChangeIdempotent | frontend/src/App.jsx:1963-1974 | applying the same change twice equals applying it once |
| Matching.ReverseNameMapKeys | frontend/src/App.jsx:4452-4456 | the reverse map has exactly the non-empty work keys of the links |
| Matching.ReverseNameMapLast | frontend/src/App.jsx:4452-4456 | a work key maps to the attendance name of its last link |
| Matching.BestOf | frontend/src/App.jsx:4637-4645 | the best index has the maximal score, and every earlier score is strictly lower (replacement only on a strictly higher score) |
| Matching.BestIsFirstMax | frontend/src/App.jsx:4639-4641 | the scan's best index is the first maximal one |
| Matching.RunnerUpIsMax | frontend/src/App.jsx:4639-4644 | the scan's runner-up is the maximum of all other scores |
| Matching.BestTwo | frontend/src/App.jsx:4635-4645 | the scan yields a best iff there is a candidate and a runner-up iff there are two; they are the first maximum and the maximum of the rest |
| Matching.AcceptedMonotone | frontend/src/App.jsx:4646-4651 | raising the best score or lowering the runner-up never turns an accepted match into a rejected one |
| Matching.FuzzyVerdictSpec | frontend/src/App.jsx:4646-4654 | an accepted match is some candidate with its own score, beats or ties every candidate, and scores at least 0.82 |
| Matching.FuzzyHighAccepted | frontend/src/App.jsx:4649 | any candidate scoring 0.9 or more makes the work name matched |
| Matching.FuzzyTieRejected | frontend/src/App.jsx:4650 | two candidates tying at the top below 0.9 leave the work name unmatched |
| Matching.FuzzyMatchFor | frontend/src/App.jsx:4633-4654 | the scan over the candidates computes the fuzzy verdict |
| Matching.CollectSpec | frontend/src/App.jsx:4630-4655 | over distinct operators, the fuzzy candidates name each operator at most once, and every eligible operator (not linked, with an accepted verdict) is among them |
| Matching.CollectFuzzy | frontend/src/App.jsx:4630-4655 | the loop collects exactly those candidates |
| Matching.AssignGreedy | frontend/src/App.jsx:4658-4664 | an operator is granted iff its match is the first one for its attendance key. Every grant comes from the list, the used set is exactly the granted keys, and no key is granted twice |
| Matching.GreedyBeaten | frontend/src/App.jsx:4657-4664 | in descending score order, an accepted match that is not granted lost to a granted match for the same key with a score at least as high |
| Matching.FuzzyAssignment | frontend/src/App.jsx:4630-4664 | each assigned operator is an unlinked operator with exactly that accepted match; no attendance key is assigned twice; every accepted operator is assigned or lost its key to a match scoring at least as high |
| Matching.ManualLinkJoins | frontend/src/App.jsx:4666-4671 | a manual link takes precedence: the row key is the canonical attendance name of the last link with that work key, whatever the fuzzy map says |
| Matching.FuzzyMatchJoins | frontend/src/App.jsx:4666-4671 | without a manual link, a fuzzy-matched operator joins the row of its matched candidate's key |
| Matching.CalcWorkRatioPercent | frontend/src/App.jsx:442-445 | the ratio exists iff attendance hours are at least 0.5, and then ratio times attendance hours equals 100 times EWH |
| Matching.WorkRatioFull | frontend/src/App.jsx:442-445 | the ratio is at least 100 iff EWH is at least the attendance hours |
| Matching.Round2 | frontend/src/App.jsx:4719 | `Math.round(x * 100) / 100` lies within 0.005 of x and has at most two decimals |
| Matching.Round2Monotone | frontend/src/App.jsx:4719 | rounding to two decimals is monotone |
| Matching.CompositeScore | frontend/src/App.jsx:4709-4723 | the score exists iff attendance hours are at least 0.5, and then lies within 0.005 of the weighted units (1.0/0.8/0.5/0.3) per hour |
| Matching.CompositeMonotone | frontend/src/App.jsx:4709-4723 | more units in any stage never lower the composite score |
| Matching.CompositeExample | frontend/src/App.jsx:4709-4723 | 100 picking and 50 sorting units over 8 hours score 14.38; 0.4 hours give no score |
| Matching.GetDominantStageKey | frontend/src/App.jsx:447-457 | there is no stage iff all three stage totals are at most 0. Otherwise the chosen stage has the maximal total, ties going to picking, then packing, then sorting |

## Left out

- I/O and persistence: Express routes, uploads, file paths, the Supabase queries (the `created_at` window filter and ordering of punches included), caches. Only the data these return enter the model, as parameters.
- Spreadsheet reading, `XLSX.SSF.parse_date_code`, `Date.parse` and time zones: timestamp parsing is an abstract partial function, and `Number(...)` on a quantity cell is an abstract partial function to integers.
- Floating point: ratios, hours and scores are exact reals. `Number.isFinite` and NaN appear only through the abstract quantity parser. `toFixed`, `localeCompare` and warning message texts are not modelled; warnings carry their figures instead.
- Names.NormalizeName: Unicode NFD decomposition and case folding are modelled only for Latin-1 (U+0000-U+00FF); other scripts pass unchanged apart from the CJK range.
- Names.NormalizeWorkKey: the account branch lower-cases Latin-1 only, where `toLowerCase` maps all of Unicode. The model keeps "OB1Σ" as "ob1Σ" where the code gives "ob1σ". `toLowerCase` can also lengthen a string ("İ" becomes two code units), so the clause that the key is as long as the compacted name holds for the model only.
- Attendance.ActionOf: upper-cases ASCII only, where `toUpperCase` maps all of Unicode. An action "ın" (dotless ı, U+0131) is IN in the code, but neither IN nor OUT in the model.
- Sorting.SortStrings: the model orders strings by Unicode scalar values, while the default `sort()` compares UTF-16 code units. The two disagree only when a character above U+FFFF meets one in U+E000-U+FFFF. The tokens sorted here are a-z and CJK ideographs after `normalizeName`, where they agree.
- Strings are sequences of Unicode scalar values, so a character above U+FFFF is one character where JavaScript counts two code units. String lengths (the Levenshtein and Dice denominators, the 4-character prefix rule) differ from the code's only for such characters.
- In-place aliasing: `mergeIntervals` and `mergeAttendanceSegments` update `merged[0]`, which is the caller's first interval object. The model works on values and does not capture that the caller's object changes.
- The rest of `buildDetailRows`: row creation, `attachWork`, `workByKey`, and the noon shift classification (frontend/src/App.jsx:4680-4706), which depends on local-time Date getters. Of the row join, only the row key is modelled.
- `bannerPackingShiftStats`, the React component, rendering, timers, local storage, HTML and Excel export.
- Matching.FuzzyMatchFor: the source keeps best and second while it scans. The model scores all candidates first and then makes one best/runner-up pass (`Matching.BestTwo`). `Matching.BestIsFirstMax` and `Matching.RunnerUpIsMax` show the two give the same pair.
- Timeline.StartMinute and Timeline.EndMinute: the `new Date(...)` conversion of ISO strings is not modelled; times enter as milliseconds.

## Findings

| source | as written | input that shows it | evidently intended | confidence | as-written member | corrected member |
|---|---|---|---|---|---|---|
| frontend/src/App.jsx:584-596 | the last pass of `mergeSegments` joins same-kind neighbours within the gap but keeps only the first segment's units, unlike the first pass (App.jsx:552-557) | picking 0-10 with 5 units, idle 10-20, picking 20-30 with 7 units, gap 15: after bridging, the last pass gives one picking segment 0-30 with 5 units | the joined segment carries 12 units, as the first pass would give | not executed | Timeline.MergeSegmentsLosesUnits | Timeline.MergeSegments |
