# Teacher "My Exams" page: grading and results bookkeeping

This project is a Dafny model of the logic inside the teacher's exam
management page, `client/src/pages/teacher/MyExamsPage.tsx`. It covers:

- **classification**: a score is turned into a percentage of the exam's total
  marks. The grade is the label of the first band, in list order, whose
  inclusive `[minScore, maxScore]` contains it. Otherwise the grade is `'F'`.
  The band colour is looked up by label in the same first-match way;
- **results statistics**: the grade distribution of the stored grades, the
  rounded average score, the completion rate and the percentage column of the
  results table;
- **exam-list handlers**: delete, publish, publish or unpublish results, and
  the criteria update that regrades every result of one exam. Also the three
  dashboard counters;
- **the rendered list**: the status filter, which keeps the exams' order,
  followed by a stable sort;
- **the page state**: a class `Page.MyExamsPage` with the component's state
  fields and one method per handler. The band editor writes the bounds of a
  criterion object in place. `Records.Criterion` is therefore a class, and the
  default criteria array shared by the three initial exams is shared in the
  model too.

Modules:

- `Wrappers`: `Option`.
- `Grading`: bands, `CalculateGrade`, `GradeColor`, the default table.
- `Records`: results, exams, criterion objects.
- `Stats`: `getResultsStats`, completion rate, row percentage.
- `ExamList`: list handlers and counters.
- `ExamView`: `filteredExams`.
- `Fixtures`: the page's initial data and facts about it.
- `Page`: the component state and its handlers.

Percentages are decided exactly on integers. `percentage >= min` becomes
`min * totalMarks <= score * 100`, and the comparisons flip for a negative
total. `InBandIsPercentageRange` proves this agrees with the real quotient.
For a total of 0 the source computes NaN or an infinity, which no band
contains, so the grade is `'F'`. The source raises no error in that case, and
the model follows the code: it has no error result for a non-positive total.
`Math.round(a / b)` for `b > 0` is `RoundDiv`, characterised as the integer
`r` with `2br - b <= 2a < 2br + b`, i.e. halves round up.
The completion rate counts an exam whose results list is absent as having 0
submissions (`exam.results?.length || 0`), and it does not depend on the grades.

A stored grade is data, not derived. Changing the criteria regrades only the
exam being edited (`updateGradeCriteria`). Another exam that shares the same
criteria objects sees the new bounds but keeps its old grades. The
`EditMinScore` and `EditMaxScore` contracts state both effects.

## Model

| member | source | states |
|---|---|---|
| Grading.FindFirst | client/src/pages/teacher/MyExamsPage.tsx:187-189 | `Array.prototype.find` by position. The result satisfies the predicate and no earlier element does. `None` exactly when no element does. |
| Grading.LabelOrFallback | client/src/pages/teacher/MyExamsPage.tsx:190 | `grade?.grade \|\| 'F'` gives the label itself, or `'F'` when the label is empty, and is never empty. |
| Grading.CalculateGrade | client/src/pages/teacher/MyExamsPage.tsx:185-191 | The computed grade is never the empty string. |
| Grading.InBandIsPercentageRange | client/src/pages/teacher/MyExamsPage.tsx:186-188 | For a non-zero total, the integer test `InBand` holds exactly when `min <= score / totalMarks * 100 <= max` on reals. |
| Grading.InBand | client/src/pages/teacher/MyExamsPage.tsx:186-188 | The band test `percentage >= minScore && percentage <= maxScore`, decided on integers. `InBandIsPercentageRange` proves it equal to the real comparison. |
| Grading.DefaultBands | client/src/pages/teacher/MyExamsPage.tsx:40-49 | The default table of eight bands, A+ down to F. `DefaultBandsEndAt100`, `MockGradesOutOf100` and `DefaultBandsLeaveGaps` state facts about it. |
| Grading.FirstMatchingBandWins | client/src/pages/teacher/MyExamsPage.tsx:187-190 | If band `i` contains the percentage and no earlier band does, the grade is band `i`'s label. A later overlapping band never wins. |
| Grading.NoMatchingBandIsFallback | client/src/pages/teacher/MyExamsPage.tsx:190 | When no band contains the percentage the grade is `'F'`. |
| Grading.ZeroTotalIsFallback | client/src/pages/teacher/MyExamsPage.tsx:186-190 | A total of 0 (NaN or an infinite percentage) always grades `'F'`. |
| Grading.AboveTotalIsFallback | client/src/pages/teacher/MyExamsPage.tsx:186-190 | A score above a positive total grades `'F'` whenever every band stops at 100%. |
| Grading.GradeComesFromContainingBand | client/src/pages/teacher/MyExamsPage.tsx:187-190 | When some band `k` contains the percentage, the grade is the label of a band at or before `k` that contains it. |
| Grading.EditOutsideBandKeepsGrade | client/src/pages/teacher/MyExamsPage.tsx:185-191 | Replacing band `k` leaves a score's grade unchanged unless its percentage is in the old or the new range of band `k`. |
| Grading.FindFirstAgrees | client/src/pages/teacher/MyExamsPage.tsx:187 | Two lists on which the predicate agrees position by position give the same `find` result. |
| Grading.GradeColor | client/src/pages/teacher/MyExamsPage.tsx:193-196 | The colour is never empty. A label no band carries gives `'bg-gray-500'`. |
| Grading.ColorOfFirstLabel | client/src/pages/teacher/MyExamsPage.tsx:193-196 | If no earlier band carries band `i`'s label, the colour looked up for that label is band `i`'s own colour, or `'bg-gray-500'` when it has none. Duplicate labels after `i` do not matter. |
| Grading.DefaultBandsEndAt100 | client/src/pages/teacher/MyExamsPage.tsx:40-49 | Every default band has its maximum at or below 100%. |
| Records.Bands | client/src/pages/teacher/MyExamsPage.tsx:6-11 | The bands a criteria array describes: one per object, holding that object's current fields. |
| Stats.GradeDistribution | client/src/pages/teacher/MyExamsPage.tsx:267-270 | The `reduce` loop: one entry per stored label, in first-seen order, each with the number of results carrying it. The counts add up to the number of results. |
| Stats.FirstSeenLabels | client/src/pages/teacher/MyExamsPage.tsx:267-270 | The distribution's labels are pairwise distinct, and a label is listed exactly when some result stores it. |
| Stats.TallyTotalUpdate | client/src/pages/teacher/MyExamsPage.tsx:268 | Bumping one entry changes the total of the counts by the change of that entry. |
| Stats.AverageScore | client/src/pages/teacher/MyExamsPage.tsx:272-274 | The summing loop: 0 for no results, otherwise the nearest integer to sum / n, halves rounded up. |
| Stats.GetResultsStats | client/src/pages/teacher/MyExamsPage.tsx:266-277 | The distribution is that of the results with counts summing to their number. The average is `RoundDiv(sum, n)`, or 0 when empty. |
| Stats.RoundDiv | client/src/pages/teacher/MyExamsPage.tsx:273 | `Math.round(a / b)` for `b > 0`: `2br - b <= 2a < 2br + b`. |
| Stats.RoundDivUnique | client/src/pages/teacher/MyExamsPage.tsx:273 | Only one integer satisfies that rounding condition. |
| Stats.CompletionRate | client/src/pages/teacher/MyExamsPage.tsx:512 | 0 with no participants. Otherwise the nearest integer to 100 * submitted / participants. |
| Stats.Submitted | client/src/pages/teacher/MyExamsPage.tsx:512 | `exam.results?.length \|\| 0`: the number of results, 0 when the list is absent. `CompletionRate` and `CompletionRateBounds` use it. |
| Stats.CompletionRateBounds | client/src/pages/teacher/MyExamsPage.tsx:512 | While submissions do not exceed participants the rate is in [0, 100], and it is 100 when all submitted. |
| Stats.RoundedBetween | client/src/pages/teacher/MyExamsPage.tsx:273 | A rounded quotient of a value between `lo * b` and `hi * b` lies between `lo` and `hi`. |
| Stats.RowPercentage | client/src/pages/teacher/MyExamsPage.tsx:599 | `None` exactly for a zero total (NaN or an infinity). Otherwise the nearest integer to 100 * score / total, for either sign of the total. |
| Stats.RowPercentageBounds | client/src/pages/teacher/MyExamsPage.tsx:599 | A score between 0 and a positive total shows a percentage between 0 and 100. |
| ExamList.CountWhere | client/src/pages/teacher/MyExamsPage.tsx:299 | `exams.filter(p).length` never exceeds the list length. |
| ExamList.CountWhereExtremes | client/src/pages/teacher/MyExamsPage.tsx:299 | The count is 0 exactly when no exam satisfies the predicate, and equals the length exactly when every exam does. |
| ExamList.PublishedCount | client/src/pages/teacher/MyExamsPage.tsx:299 | The "Published" counter: the number of published exams. `PublishCount` states how publishing changes it. |
| ExamList.ResultsPublishedCount | client/src/pages/teacher/MyExamsPage.tsx:307 | The "Results Published" counter. `ResultsPublishedCountAfterSet` states how the results handlers change it. |
| ExamList.TotalParticipants | client/src/pages/teacher/MyExamsPage.tsx:315 | The "Total Participants" counter, `reduce((sum, exam) => sum + exam.participants, 0)`. `SumOfConcat` and `DeleteParticipants` carry its meaning. |
| ExamList.RegradeAll | client/src/pages/teacher/MyExamsPage.tsx:238 | `exam.results?.map(...)`: an absent list stays absent, and a present one is `Regrade`d. `Reclassify` states the effect. |
| ExamList.CountWhereConcat | client/src/pages/teacher/MyExamsPage.tsx:299 | The count of a concatenation is the sum of the counts of its parts. |
| ExamList.Delete | client/src/pages/teacher/MyExamsPage.tsx:200 | The kept exams are exactly those whose id differs. The length drops by the number of exams with the id. |
| ExamList.DeleteKeepsOrder | client/src/pages/teacher/MyExamsPage.tsx:200 | Deleting distributes over concatenation, so the kept exams stay in their relative order. |
| ExamList.DeleteAbsentId | client/src/pages/teacher/MyExamsPage.tsx:200 | Deleting an id no exam carries leaves the list unchanged. |
| ExamList.DeleteParticipants | client/src/pages/teacher/MyExamsPage.tsx:200 | The participants counter drops by exactly the participants of the deleted exams. |
| ExamList.SumOfConcat | client/src/pages/teacher/MyExamsPage.tsx:315 | The participant sum of a concatenation is the sum of the parts. |
| ExamList.Publish | client/src/pages/teacher/MyExamsPage.tsx:207-210 | Same length. Exams with the id get status published and nothing else changes. Other exams are untouched. |
| ExamList.PublishCount | client/src/pages/teacher/MyExamsPage.tsx:207-210 | The "Published" counter grows by exactly the matching exams that were not published. |
| ExamList.PublishIdempotent | client/src/pages/teacher/MyExamsPage.tsx:207-210 | Publishing twice equals publishing once. |
| ExamList.SetResultsPublished | client/src/pages/teacher/MyExamsPage.tsx:216-233 | Same length. Only `resultsPublished` of the exams with the id changes, to the given value. |
| ExamList.ResultsPublishedCountAfterSet | client/src/pages/teacher/MyExamsPage.tsx:216-233 | The "Results Published" counter loses the matching exams that had the flag and, when publishing, gains all matching exams. |
| ExamList.ResultsPublishedLastWins | client/src/pages/teacher/MyExamsPage.tsx:216-233 | Of two successive flag settings, the last one wins. |
| ExamList.Regrade | client/src/pages/teacher/MyExamsPage.tsx:238-241 | Same number and order of results. Each keeps every field except `grade`, which becomes `calculateGrade(score, totalMarks, bands)`. |
| ExamList.Reclassify | client/src/pages/teacher/MyExamsPage.tsx:235-246 | Same length. Exams with the id take the new criteria and regraded results; every other exam is unchanged. |
| ExamList.ReclassifyMakesGradesCurrent | client/src/pages/teacher/MyExamsPage.tsx:235-246 | After the update every stored grade of the edited exam agrees with the bands it was regraded with. |
| ExamList.ReclassifyIdempotent | client/src/pages/teacher/MyExamsPage.tsx:235-246 | Updating twice with the same criteria and bands equals updating once. |
| ExamView.FilterStatus | client/src/pages/teacher/MyExamsPage.tsx:164 | Every kept exam matches the filter and the result is a sub-multiset of the list. With `'all'` the list is kept as it is. |
| ExamView.FilterKeepsOrder | client/src/pages/teacher/MyExamsPage.tsx:164 | Filtering distributes over concatenation, so the kept exams stay in their relative order. |
| ExamView.Matches | client/src/pages/teacher/MyExamsPage.tsx:164 | The filter test `filterStatus === 'all' \|\| exam.status === filterStatus`; `FilterStatus` and `FilteredExamsExactly` state what it keeps. |
| ExamView.TitleLe | client/src/pages/teacher/MyExamsPage.tsx:171 | Title order (`localeCompare(...) <= 0`, as code-point order); `TitleLeTotal` and `TitleLeTransitive` show it is a total preorder. |
| ExamView.InOrder | client/src/pages/teacher/MyExamsPage.tsx:165-173 | The comparator: newer `createdAt` first, earlier `deadline` first, title order, or always in order for any other key. `InOrderTotal` and `InOrderTransitive` carry its meaning. |
| ExamView.FilterKeepsMatches | client/src/pages/teacher/MyExamsPage.tsx:164 | Every matching exam keeps all its occurrences. |
| ExamView.TitleLeTotal | client/src/pages/teacher/MyExamsPage.tsx:171 | The title order is total. |
| ExamView.TitleLeTransitive | client/src/pages/teacher/MyExamsPage.tsx:171 | The title order is transitive. |
| ExamView.InOrderTotal | client/src/pages/teacher/MyExamsPage.tsx:165-174 | The comparator of each sort key orders any two exams one way or the other. |
| ExamView.InOrderTransitive | client/src/pages/teacher/MyExamsPage.tsx:165-174 | The comparator of each sort key is transitive. |
| ExamView.Insert | client/src/pages/teacher/MyExamsPage.tsx:165 | Insertion adds exactly one occurrence of the element. |
| ExamView.InsertSorted | client/src/pages/teacher/MyExamsPage.tsx:165-174 | Inserting into a sorted list keeps it sorted. |
| ExamView.SortExams | client/src/pages/teacher/MyExamsPage.tsx:165-174 | The result is a permutation of the input, sorted by the key: newest `createdAt` first, earliest `deadline` first, or titles ascending. |
| ExamView.SortedInputKept | client/src/pages/teacher/MyExamsPage.tsx:165-174 | A list already in the key's order is returned unchanged. |
| ExamView.InsertTied | client/src/pages/teacher/MyExamsPage.tsx:165-174 | Inserting an exam puts it ahead of every exam it ties with and keeps their order among themselves. |
| ExamView.SortStable | client/src/pages/teacher/MyExamsPage.tsx:165-174 | The sort is stable: for any exam `e`, the exams that compare equal to `e` come out in the order they went in. |
| ExamView.FilteredExams | client/src/pages/teacher/MyExamsPage.tsx:163-174 | The result is a permutation of the filtered exams, sorted by the key. |
| ExamView.FilteredExamsExactly | client/src/pages/teacher/MyExamsPage.tsx:163-174 | Only matching exams are shown, and every matching exam is shown as many times as the list holds it. |
| ExamView.UnsortedKeepsOrder | client/src/pages/teacher/MyExamsPage.tsx:173 | When the comparator returns 0 for every pair, the stable sort keeps the order. |
| ExamView.ShowAllUnsorted | client/src/pages/teacher/MyExamsPage.tsx:163-174 | With `'all'` and an unknown sort value the list is shown as stored. |
| Fixtures.MockResults | client/src/pages/teacher/MyExamsPage.tsx:51-102 | The five sample results. `MockGradesOutOf100`, `MockDistribution` and `MockAverage` state their grades and statistics. |
| Fixtures.MockExams | client/src/pages/teacher/MyExamsPage.tsx:105-151 | The three initial exams over one criteria array. `MockExamsShareCriteria` states the sharing. |
| Fixtures.MockExamsShareCriteria | client/src/pages/teacher/MyExamsPage.tsx:105-151 | All three initial exams hold the same criteria array. |
| Fixtures.MockGradesOutOf100 | client/src/pages/teacher/MyExamsPage.tsx:51-102 | Out of 100 marks, the default bands give each sample result exactly its stored grade (A, B+, C+, A+, D). |
| Fixtures.MockResultsFailOutOf50 | client/src/pages/teacher/MyExamsPage.tsx:51-117 | Regraded against exam 1's 50 marks with any bands ending at 100%, all five samples get `'F'`. |
| Fixtures.MockExam1RegradedWithDefaults | client/src/pages/teacher/MyExamsPage.tsx:40-117 | With the default bands in particular, all five samples of exam 1 regrade to `'F'`. |
| Fixtures.MockFirstSeen | client/src/pages/teacher/MyExamsPage.tsx:51-102 | The sample labels in first-seen order are A, B+, C+, A+, D. |
| Fixtures.MockCounts | client/src/pages/teacher/MyExamsPage.tsx:51-102 | Each sample label occurs exactly once. |
| Fixtures.MockDistribution | client/src/pages/teacher/MyExamsPage.tsx:267-270 | The samples' distribution is {A:1, B+:1, C+:1, A+:1, D:1}. |
| Fixtures.MockAverage | client/src/pages/teacher/MyExamsPage.tsx:272-274 | The samples' average 417 / 5 rounds to 83. |
| Fixtures.DefaultBandsLeaveGaps | client/src/pages/teacher/MyExamsPage.tsx:40-49 | 71 of 75 marks (94.67%) falls between the A and A+ bands and grades `'F'`, while its row shows 95%. |
| Page.Toggle | client/src/pages/teacher/MyExamsPage.tsx:663 | `current === id ? null : id` yields `id` exactly when `current` was not `id`, and is otherwise null. |
| Page.ParsedOr | client/src/pages/teacher/MyExamsPage.tsx:695 | `parseInt(text) \|\| fallback` keeps a non-zero parsed value. An unparseable or zero input gives the fallback. |
| Page.NewDefaultCriteria | client/src/pages/teacher/MyExamsPage.tsx:40-49 | Loading the module creates fresh criterion objects holding exactly the default table. |
| Page.MyExamsPage.constructor | client/src/pages/teacher/MyExamsPage.tsx:105-158 | Mounting the page. The module's criteria array, with whatever bounds it holds now, becomes the shared criteria of all three mock exams. Filter `'all'`, sort by `createdAt`, nothing expanded, editing or confirming. |
| Page.MyExamsPage.CriteriaOf | client/src/pages/teacher/MyExamsPage.tsx:694 | `exam.gradeCriteria \|\| defaultGradeCriteria`, read by both band editors (694 and 707). `EditMinScore` and `EditMaxScore` state the write through it. |
| Page.MyExamsPage.Shown | client/src/pages/teacher/MyExamsPage.tsx:163-174 | The rendered list is a permutation of the filtered exams, sorted by the chosen key. |
| Page.MyExamsPage.CurrentTab | client/src/pages/teacher/MyExamsPage.tsx:362 | A recorded tab is shown, and an exam with no recorded tab shows the details tab. |
| Page.MyExamsPage.SetFilterStatus | client/src/pages/teacher/MyExamsPage.tsx:330 | Only the filter changes. |
| Page.MyExamsPage.SetSortBy | client/src/pages/teacher/MyExamsPage.tsx:342 | Only the sort key changes. |
| Page.MyExamsPage.HandleDelete | client/src/pages/teacher/MyExamsPage.tsx:198-205 | If confirmed, the list becomes `Delete(old list, id)`; otherwise nothing changes. Other state is unchanged. |
| Page.MyExamsPage.HandlePublish | client/src/pages/teacher/MyExamsPage.tsx:207-214 | The list becomes `Publish(old list, id)`; the other state is unchanged. |
| Page.MyExamsPage.OpenPublishConfirm | client/src/pages/teacher/MyExamsPage.tsx:544 | The confirmation dialog opens for the exam; the rest is unchanged. |
| Page.MyExamsPage.CancelPublishConfirm | client/src/pages/teacher/MyExamsPage.tsx:781 | The dialog closes; the rest is unchanged. |
| Page.MyExamsPage.HandlePublishResults | client/src/pages/teacher/MyExamsPage.tsx:216-224 | The matching exams' results flag is set and the dialog closes. The rest is unchanged. |
| Page.MyExamsPage.HandleUnpublishResults | client/src/pages/teacher/MyExamsPage.tsx:226-233 | The matching exams' results flag is cleared; the rest is unchanged. |
| Page.MyExamsPage.UpdateGradeCriteria | client/src/pages/teacher/MyExamsPage.tsx:235-246 | The list becomes `Reclassify` of the old list, with the bands the criteria objects now hold. The rest is unchanged. |
| Page.MyExamsPage.HandleTabChange | client/src/pages/teacher/MyExamsPage.tsx:248-250 | The exam's tab becomes the chosen one; no other tab or field changes. |
| Page.MyExamsPage.ToggleExamExpansion | client/src/pages/teacher/MyExamsPage.tsx:252-260 | The exam collapses if it was expanded, otherwise it becomes the one expanded exam. Its tab is reset to details either way. |
| Page.MyExamsPage.ToggleEditing | client/src/pages/teacher/MyExamsPage.tsx:663 | Editing of the exam's criteria toggles; the rest is unchanged. |
| Page.MyExamsPage.CancelEditing | client/src/pages/teacher/MyExamsPage.tsx:730 | Editing ends and nothing is rolled back: exams and criteria stay as edited. |
| Page.MyExamsPage.SaveEditing | client/src/pages/teacher/MyExamsPage.tsx:736-741 | Editing ends; the edits were applied already. |
| Page.MyExamsPage.EditMinScore | client/src/pages/teacher/MyExamsPage.tsx:693-696 | The criterion object's minimum becomes `parseInt(text) \|\| 0` in place, and its other fields stay. The edited exam is regraded. Every exam holding the same array sees the new minimum. |
| Page.MyExamsPage.EditMaxScore | client/src/pages/teacher/MyExamsPage.tsx:706-709 | As for the minimum, with `parseInt(text) \|\| 100`: a missing or zero input gives 100. |

## Left out

- `client/src/services/authService.ts` is not part of this model. It sends HTTP requests through the app's `API` client (`../utils/api`) and writes a token to `localStorage`.
- Rendering, styling, animation and the toast notifications are left out. The toast fields (`showToast`, `toastMessage`, `toastType`) are left out of the page state.
- `getStatusColor` (lines 176-183) is left out: it only maps a status to a CSS class.
- The `window.confirm` prompt of `handleDelete` is left out. The user's answer is the `confirmed` parameter.
- Dates are abstract integer timestamps, so parsing dates and `toLocaleString` are left out. A later date is a larger number.
- `ExamView.TitleLe`: `localeCompare` is modelled as code-point lexicographic order. Locale collation (case, accents) is not modelled.
- `Page.ParsedOr`: `parseInt` of the input text is left out. The input is an optional integer, where `None` stands for NaN. The `|| 0` and `|| 100` fallbacks are modelled.
- Floating point is left out. Percentages and averages are exact rationals decided on integers, so IEEE rounding of `score / totalMarks * 100` is not modelled, either at a band bound or at an exact half under `Math.round` (see the `Stats.RowPercentage` line). The source checks no range on a total of 0 or less; the model gives `'F'` for 0 and flips the comparisons for a negative total, as exact arithmetic does.
- `Stats.GradeDistribution`: the object's keys are in first-seen order. JavaScript lists integer-like keys (such as `"1"`) first in numeric order; that is not modelled, and grade labels are not integer-like.
- `Stats.GradeDistribution`: labels named after `Object.prototype` members are treated as ordinary labels. In JavaScript, `__proto__` is not stored as a key, and `constructor` starts from a function value, not from 0.
- `Stats.RowPercentage` rounds the exact quotient. IEEE arithmetic can land just below an exact half: 23 of 40 marks gives `57.49999999999999`, which the page shows as 57%, while the model gives 58.
- `Stats.CompletionRate` has the same exact-half difference: 23 submissions from 40 participants show 57%, while the model gives 58.
- `Page.MyExamsPage.constructor` does not create the criteria objects itself. The module-level array outlives the page and keeps in-place edits across mounts. The model passes that array in; `Page.NewDefaultCriteria` models the module's one-time creation of it.
- `Page.MyExamsPage.OpenPublishConfirm`: the dialog is rendered only when `showPublishConfirm` is truthy, so an exam with id 0 never shows it. That rendering condition is not modelled.
- "Editing a band changes exactly the grades inside the changed range" is proved only in the direction that holds for first-match lookup (`Grading.EditOutsideBandKeepsGrade`). A score inside the new range can keep its grade when an earlier band also contains it.
