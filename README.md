# Study-workload engine and schedule editors

This project models the core of a university workload planner. The planner
turns a module's teaching schedule and coursework into weekly study hours.
It has three parts.

- **Distribution engine (server).** For a piece of coursework it spreads the
  preparation time over the semester's weeks, following one of three study
  styles: `earlyStarter`, `steady` and `justInTime`.
  - For an exam it also derives four private-study distributions from the
    teaching schedule, scaled by the ratios 0, 0.5, 1 and 2.
  - For each of those ratios and each study style, it spreads the leftover
    revision time over the last three weeks of the semester.
  - Finally it sums the stored distributions of several modules, week by week,
    into the rows of the effort graph.
- **Teaching-schedule editor (client).** It stores a grid with one table per
  semester, six activity rows per table and one column per week. The grid is
  saved as per-activity totals and week-by-week distributions, and read back
  into a grid for a given template type. Cells of reading weeks are forced to
  zero. A cell edit parses the typed text the way the browser's `parseInt`
  does.
- **Programme designer (client).** It handles drag-and-drop of module
  instances within one programme's list or between two programmes.

Modules, one per file:

- `Common`: option and result types, `Array.prototype.find` by key,
  reading-week shapes, ASCII case mapping and decimal text.
- `Helpers`: rounding to the nearest half hour and safe division.
- `Workload`: the engine's records, week counts and hour totals.
- `Preparation`: preparation time for coursework that is not an exam.
- `PrivateStudy`: private study derived from the teaching schedule.
- `RemainingPreparation`: exam revision in the last three weeks.
- `Orchestrator`: the complete set of distributions for one piece of
  coursework.
- `Aggregator`: the per-week rows of the effort graph.
- `ClientNumbers`: JavaScript numbers and `parseInt` (ECMAScript 2024,
  section 19.2.5).
- `TeachingSchedule`: the schedule editor's transformations.
- `ProgrammeDesigner`: the drag-and-drop handler.

Modelling choices:

- Hours are real numbers.
- Grid cells are finite numbers or `NaN`.
- Study styles, semesters, tags and ratios are strings. This lets the model pin
  down the exact spelling on which lookups succeed or fail.
- Every thrown error is an `Err` value. For example, writing to a week outside
  the semester's array becomes `PropertyOfUndefined`.
- Steps that update an array or an object in place are methods over Dafny
  arrays or objects. Each method is either proved equal to a specification
  function or states its whole new state in its ensures.
- The specification functions have lemmas that state what the source promises
  or does.

## Model

| member | source | states |
|---|---|---|
| Common.FindFirst | server/src/utils/distributionCalculations.js:395-397 | `Array.prototype.find` by key, used for every lookup (variants by type, programmes and module instances by id): the index of the first item whose key matches, or none exactly when no item's key matches |
| Common.NatText | server/src/utils/distributionCalculations.js:443 | the decimal text of a week number: at least one digit, only digits, no leading zero |
| Helpers.RoundToNearestHalf | server/src/utils/distributionCalculations.js:35 | the rounding helper returns a multiple of one half that lies within a quarter hour of its argument (x - 0.25 < r <= x + 0.25) |
| Helpers.SafeDivide | server/src/utils/distributionCalculations.js:43-46 | division by a non-zero divisor is ordinary division |
| Workload.TotalWeeks | server/src/utils/distributionCalculations.js:14-19 | a semester has 15, 18 or 33 weeks (first or unknown, second, whole session; compared case-insensitively) |
| Preparation.StartWeek | server/src/utils/distributionCalculations.js:25-29 | preparation starts the released lead before the deadline, never before week 1: the start is 1 or exactly deadline minus lead |
| Preparation.PreparationHours | server/src/utils/distributionCalculations.js:5-92 | missing coursework and an unknown style are errors; earlyStarter always succeeds; steady fails exactly when the start week is past the semester; justInTime fails exactly when the deadline is outside the semester; a result covers weeks 1..totalWeeks consecutively |
| Preparation.PreparationHalfHours | server/src/utils/distributionCalculations.js:35 | every week of a preparation distribution is a whole number of half hours |
| Preparation.DistributeTime | server/src/utils/distributionCalculations.js:32-38 | adds the rounded share to exactly the weeks from start to end that lie in the semester and leaves every other week as it was |
| Preparation.DistributeSteadily | server/src/utils/distributionCalculations.js:63-71 | the start week gets 1 hour, each later week up to the deadline gets the rounded running total of the series, the rest stay 0 |
| Preparation.CalculatePreparationDistributions | server/src/utils/distributionCalculations.js:5-92 | the array-filling procedure gives exactly the result or error of PreparationHours |
| Preparation.PreparationTimeDistributions | server/src/utils/distributionCalculations.js:94-104 | three tagged distributions in style order when all three styles succeed; otherwise the error of the first style that fails |
| Preparation.EarlyStarterWeeks | server/src/utils/distributionCalculations.js:41-48 | earlyStarter puts the same rounded share in every week from the start to the deadline and nothing elsewhere |
| Preparation.EarlyStarterSpread | server/src/utils/distributionCalculations.js:41-48 | the earlyStarter total is the rounded share times the number of its weeks that fall inside the semester |
| Preparation.BlockTotal | server/src/utils/distributionCalculations.js:32-38 | a distribution with one value on the weeks start..deadline and 0 elsewhere totals that value times the weeks of that block inside the array |
| Preparation.EarlyStarterTotalNearBudget | server/src/utils/distributionCalculations.js:42-47 | when the whole span lies in the semester, the earlyStarter total is within a quarter hour per week of the preparation time |
| Preparation.SteadyShape | server/src/utils/distributionCalculations.js:49-75 | steady gives 1 hour in the start week, the rounded series value in each week after it up to the deadline, and 0 elsewhere |
| Preparation.SteadySeriesClosedForm | server/src/utils/distributionCalculations.js:63-71 | the unrounded running total after n weeks is n + increment * n(n-1)/2 |
| Preparation.SteadySeriesMeetsBudget | server/src/utils/distributionCalculations.js:55-62 | with a lead of at least one week, the unrounded series over lead+1 weeks sums exactly to the preparation time |
| Preparation.SteadyClampedSpanMissesBudget | server/src/utils/distributionCalculations.js:50-71 | the increment is computed from the released lead even when the start is clamped to week 1: a 10-hour item due in week 2 with a 3-week lead gets 3 hours in all |
| Preparation.SteadyWithoutLeadIsOneWeek | server/src/utils/distributionCalculations.js:24-29 | with no released lead the start is the deadline, so steady is 1 hour in that week and nothing else |
| Preparation.JustInTimeAtDeadline | server/src/utils/distributionCalculations.js:76-83 | justInTime puts the rounded preparation time in the deadline week only, so that is also its total |
| Preparation.EarlyStarterScenario | server/src/utils/distributionCalculations.js:41-48 | 10 hours due in week 5 with a 2-week lead gives 3.5 hours in weeks 3 to 5 of 15 |
| PrivateStudy.ContributionsUpTo | server/src/utils/distributionCalculations.js:143-155 | one contribution per entry read so far, in the entry's own week |
| PrivateStudy.ActivityContributions | server/src/utils/distributionCalculations.js:141-157 | an activity contributes one entry per distribution entry, in the same weeks |
| PrivateStudy.ContributionAt | server/src/utils/distributionCalculations.js:145-152 | the i-th contribution is the entry's week with its study hours (the previous entry's hours in a reading week, scaled by the ratio and rounded) |
| PrivateStudy.ActivityTail | server/src/utils/distributionCalculations.js:142 | an activity without a distribution contributes nothing; otherwise one entry per week of its distribution |
| PrivateStudy.ContributionsInWeeks | server/src/utils/distributionCalculations.js:153 | every contribution lands inside the semester exactly when every activity's weeks do |
| PrivateStudy.PrefixFails | server/src/utils/distributionCalculations.js:141-157 | once one activity has a week outside the semester, no longer prefix of the schedule is valid |
| PrivateStudy.TailInWeeks | server/src/utils/distributionCalculations.js:142-153 | an activity's contributions are in range exactly when its distribution's weeks are |
| PrivateStudy.Spread | server/src/utils/distributionCalculations.js:115-117 | the per-week totals form weeks 1..totalWeeks consecutively |
| PrivateStudy.PrivateStudyAllocation | server/src/utils/distributionCalculations.js:107-162 | fails (reading a week outside the array) exactly when some activity has a week outside 1..totalWeeks; otherwise weeks 1..totalWeeks, the allocated time equals the distribution's total, and the remaining time is max(budget - allocated, 0), never negative |
| PrivateStudy.DenseTotal | server/src/utils/distributionCalculations.js:153-154 | adding each contribution to its week's slot loses no hours: the weekly totals sum to the contributions' total |
| PrivateStudy.AddStep | server/src/utils/distributionCalculations.js:153-154 | adding one contribution to its slot keeps every slot equal to its week's total and the running total equal to the sum |
| PrivateStudy.AddEntry | server/src/utils/distributionCalculations.js:143-155 | one loop step keeps the slots and the running total in step with the contributions read so far |
| PrivateStudy.AddActivity | server/src/utils/distributionCalculations.js:142-156 | succeeds exactly when the activity's weeks are in range and then has added that activity's contributions |
| PrivateStudy.AllocationFromArray | server/src/utils/distributionCalculations.js:159-161 | the filled slots, total and remaining time are exactly the allocation's result |
| PrivateStudy.AddSchedule | server/src/utils/distributionCalculations.js:141-157 | succeeds exactly when every activity's weeks are in range and then holds every activity's contributions |
| PrivateStudy.CalculatePrivateStudyDistribution | server/src/utils/distributionCalculations.js:107-162 | the array-filling procedure gives exactly PrivateStudyAllocation |
| PrivateStudy.ReplaceFirst | server/src/utils/distributionCalculations.js:201 | replaces only the first occurrence of the character and keeps the length |
| PrivateStudy.RatioTags | server/src/utils/distributionCalculations.js:184-201 | the ratios 0, 0.5, 1 and 2 are tagged ratio0, ratio0_5, ratio1 and ratio2 |
| PrivateStudy.PrivateStudyDistributions | server/src/utils/distributionCalculations.js:164-211 | coursework that is not an exam is refused; for an exam it fails exactly when a week is out of range, and otherwise gives four variants tagged in ratio order, variant k carrying the distribution of the allocation at ratio 0, 0.5, 1 or 2 and its remaining time (4 hours instead when the ratio-2 allocation exceeds the budget) |
| PrivateStudy.PrivateStudyVariantsShape | server/src/utils/distributionCalculations.js:196-198 | each variant covers the semester's weeks with non-negative remaining time; for ratios below 2 that time is max(budget - allocated, 0); ratio 2 reports 4 hours once it overshoots the budget |
| PrivateStudy.VariantShapeAt | server/src/utils/distributionCalculations.js:185-207 | the same facts as PrivateStudyVariantsShape for one variant |
| PrivateStudy.ZeroRatioAllocatesNothing | server/src/utils/distributionCalculations.js:184 | ratio 0 allocates no hours in any week and leaves the whole budget (at least 0) remaining |
| PrivateStudy.ReadingWeekCarriesForward | server/src/utils/distributionCalculations.js:145-151 | a reading week that follows a normal week repeats that week's study hours; the first entry always uses its own hours |
| RemainingPreparation.Budget | server/src/utils/distributionCalculations.js:246 | the revision budget is always positive |
| RemainingPreparation.RemainingDistribution | server/src/utils/distributionCalculations.js:213-275 | succeeds exactly for the three known styles; covers the three window weeks consecutively; every week is a whole number of half hours |
| RemainingPreparation.DistributeTime | server/src/utils/distributionCalculations.js:236-240 | adds the rounded share to exactly the window weeks from start to end and leaves the rest unchanged |
| RemainingPreparation.CalculateRemainingPreparationDistributions | server/src/utils/distributionCalculations.js:213-275 | the array-filling procedure gives exactly RemainingDistribution |
| RemainingPreparation.WindowIsSemesterEnd | server/src/utils/distributionCalculations.js:219-230 | the window ends in the semester's last week and starts two weeks before it |
| RemainingPreparation.NonPositiveRemainingActsAsFour | server/src/utils/distributionCalculations.js:246 | no remaining time (0 or less) is planned as 4 hours |
| RemainingPreparation.EarlyStarterNearBudget | server/src/utils/distributionCalculations.js:243-250 | earlyStarter puts equal hours in the three weeks and comes within 0.75 h of the budget |
| RemainingPreparation.JustInTimeLastWeek | server/src/utils/distributionCalculations.js:265-269 | justInTime puts everything in the last week, within a quarter hour of the budget |
| RemainingPreparation.SteadyOvershootsBudget | server/src/utils/distributionCalculations.js:251-264 | the steady series starts at 1 and sums to budget + 2 before rounding, so its total overshoots the budget by 1.5 to 2.5 hours |
| Orchestrator.RevisionVariant | server/src/utils/distributionCalculations.js:316-323 | a revision variant is tagged style_ratioTag and covers the three-week window |
| Orchestrator.FlattenFours | server/src/utils/distributionCalculations.js:326 | flattening groups of four puts item k of group s at index 4s + k |
| Orchestrator.RevisionVariantsAt | server/src/utils/distributionCalculations.js:313-326 | twelve revision variants, style-major and ratio-minor |
| Orchestrator.CompleteDistributions | server/src/utils/distributionCalculations.js:277-336 | non-exam coursework gets no private study and the three preparation distributions (or their error); an exam fails exactly when a teaching week is out of range and otherwise carries the four private-study variants |
| Orchestrator.DeadlineIrrelevantToPrivateStudy | server/src/utils/distributionCalculations.js:295-307 | overwriting the exam's deadline does not change its private-study variants |
| Orchestrator.ExamRevisionVariants | server/src/utils/distributionCalculations.js:309-326 | for an exam, variant 4s + k is style s's revision plan for the remaining time of ratio k, tagged accordingly |
| Orchestrator.RatioTagsListed | server/src/utils/distributionCalculations.js:201 | the generated ratio tags are ratio0, ratio0_5, ratio1, ratio2 |
| Orchestrator.RevisionTagSpelled | server/src/utils/distributionCalculations.js:317 | style s with ratio tag k spells the (4s + k)-th revision tag |
| Orchestrator.RevisionVariantTags | server/src/utils/distributionCalculations.js:313-326 | the twelve variants carry the twelve revision tags in order |
| Orchestrator.ExamRevisionTags | server/src/utils/distributionCalculations.js:313-326 | an exam's twelve preparation distributions carry exactly the twelve revision tags, earlyStarter_ratio0 to justInTime_ratio2 |
| Orchestrator.CalculateCompleteDistributions | server/src/utils/distributionCalculations.js:277-336 | a missing coursework object is an error; non-exam coursework is left unchanged; an exam's deadline is overwritten with the semester's last week; the result is CompleteDistributions of the original coursework |
| Aggregator.AdjustWeekInjective | server/src/utils/distributionCalculations.js:361-372 | two weeks that both map to the same graph week are the same week |
| Aggregator.WholeSessionSplit | server/src/utils/distributionCalculations.js:361-372 | a whole-session module shows weeks 1-15 in the first semester and weeks 16-33 as 1-18 in the second, and nothing for any other semester |
| Aggregator.NoModuleNoHours | server/src/utils/distributionCalculations.js:445 | a code with no stored module contributes no hours |
| Aggregator.RowsUpToAt | server/src/utils/distributionCalculations.js:439-448 | one row per week, the i-th for week i + 1 |
| Aggregator.RowContents | server/src/utils/distributionCalculations.js:442-447 | a row has exactly the key "week" and the requested codes; each code holds its summed hours; "week" holds "Week n" unless a code named "week" overwrote it |
| Aggregator.AggregatedDataMeaning | server/src/utils/distributionCalculations.js:338-455 | fails exactly when a requested code has no stored module; otherwise 15 or 18 rows, each code in row w holding the sum over its modules of teaching, selected preparation and selected private-study hours falling on graph week w |
| Aggregator.AddEntriesInto | server/src/utils/distributionCalculations.js:423-431 | each graph week gains exactly the hours of the entries that map to it |
| Aggregator.AddTeaching | server/src/utils/distributionCalculations.js:375-388 | each graph week gains the teaching hours of all activities that map to it |
| Aggregator.AddPreparation | server/src/utils/distributionCalculations.js:404-413 | each graph week gains the hours of the first preparation distribution with the wanted tag (the style, or style_ratioR for an exam) |
| Aggregator.AddCoursework | server/src/utils/distributionCalculations.js:390-415 | each graph week gains the selected preparation hours of all the module's coursework |
| Aggregator.AggregateModule | server/src/utils/distributionCalculations.js:374-432 | each graph week gains the module's teaching, preparation and private-study hours |
| Aggregator.BuildAggregate | server/src/utils/distributionCalculations.js:349-433 | the aggregate holds, per code present and per week, the sum over all modules with that code |
| Aggregator.AbsorbModule | server/src/utils/distributionCalculations.js:351-433 | absorbing one more module keeps the aggregate equal to the sums over the modules read so far |
| Aggregator.BuildRow | server/src/utils/distributionCalculations.js:442-447 | the row is built exactly when every requested code has a module, and is then the specified row |
| Aggregator.CalculateAggregatedData | server/src/utils/distributionCalculations.js:338-455 | the accumulating procedure gives exactly AggregatedData |
| Aggregator.RatioTagsAreBare | server/src/utils/distributionCalculations.js:201 | each stored ratio tag is "ratio" followed by the bare ratio 0, 0_5, 1 or 2 |
| Aggregator.ExamLabelMatches | server/src/utils/distributionCalculations.js:394 | the exam lookup label equals revision tag 4s + k exactly for style s and bare ratio k |
| Aggregator.ExamLookupOnRevisionTags | server/src/utils/distributionCalculations.js:393-397 | an exam's revision plan is found exactly when the requested ratio is spelled 0, 0_5, 1 or 2 |
| Aggregator.DecimalRatioMissesRevisionTags | server/src/utils/distributionCalculations.js:394 | a ratio written 0.5 finds no exam revision plan |
| Aggregator.FoundTagListed | server/src/utils/distributionCalculations.js:395-420 | a lookup that finds a variant found one whose type is among the listed tags |
| Aggregator.ExamAndPrivateStudyExclusive | server/src/utils/distributionCalculations.js:418-420 | no ratio spelling selects both an exam's revision plan and the module's private study; 0.5 selects neither |
| Aggregator.NoWeekNoEntryHours | server/src/utils/distributionCalculations.js:361-372 | entries that map to no graph week add nothing |
| Aggregator.OtherSemesterContributesNothing | server/src/utils/distributionCalculations.js:361-372 | a module of another semester (or a whole-session module when neither first nor second is requested) adds no hours |
| Aggregator.TeachingNothing | server/src/utils/distributionCalculations.js:375-388 | teaching of a module that maps to no week adds nothing |
| Aggregator.CourseworkNothing | server/src/utils/distributionCalculations.js:390-415 | coursework of a module that maps to no week adds nothing |
| ClientNumbers.JsAdd | client/src/utils/admin/CreateModule/TeachingSchedule/index.ts:61-64 | a sum is finite exactly when both operands are, and is then their sum |
| ClientNumbers.TrimStart | client/src/utils/admin/CreateModule/TeachingSchedule/index.ts:273 | parseInt drops only leading white space and stops at the first character that is not white space |
| ClientNumbers.DigitRun | client/src/utils/admin/CreateModule/TeachingSchedule/index.ts:273 | the longest prefix made of digits of the radix |
| ClientNumbers.ParseInt | client/src/utils/admin/CreateModule/TeachingSchedule/index.ts:273-274 | NaN exactly when no digit follows the white space, the sign and an optional 0x prefix |
| ClientNumbers.ParseIntReadsNatText | client/src/utils/admin/CreateModule/TeachingSchedule/index.ts:273 | the decimal text of a whole number reads back as that number, also with a trailing non-digit (12px gives 12) |
| ClientNumbers.ParseIntReadsNegative | client/src/utils/admin/CreateModule/TeachingSchedule/index.ts:273 | a leading minus reads back the negated number |
| TeachingSchedule.SemesterHeading | client/src/utils/admin/CreateModule/TeachingSchedule/index.ts:16-24 | the heading is the semester's name followed by " Semester" |
| TeachingSchedule.HeadingCapitalisesFirstLetter | client/src/utils/admin/CreateModule/TeachingSchedule/index.ts:22 | only the first letter of the name is upper-cased; the rest is kept |
| TeachingSchedule.RowEntries | client/src/utils/admin/CreateModule/TeachingSchedule/index.ts:55-58 | one entry per cell, in consecutive weeks from the table's start week, carrying the cell's hours |
| TeachingSchedule.EntriesTotalAppend | client/src/utils/admin/CreateModule/TeachingSchedule/index.ts:61-64 | summing two runs of entries one after the other is the sum of their totals |
| TeachingSchedule.LastHoursOfConsecutive | client/src/utils/admin/CreateModule/TeachingSchedule/index.ts:83-88 | in consecutive weeks, a week's hours are its entry's, or 0 outside the run |
| TeachingSchedule.Padded | client/src/utils/admin/CreateModule/TeachingSchedule/index.ts:78-90 | the padded distribution has one entry for each of weeks 1..totalWeeks |
| TeachingSchedule.PaddedKeepsFullDistribution | client/src/utils/admin/CreateModule/TeachingSchedule/index.ts:74-92 | padding a distribution that already covers weeks 1..n to n weeks changes nothing |
| TeachingSchedule.SaveData | client/src/utils/admin/CreateModule/TeachingSchedule/index.ts:26-95 | a grid of other than two tables without a first row is an error (the total week count reads that row); otherwise six saved activities |
| TeachingSchedule.FindWeek | client/src/utils/admin/CreateModule/TeachingSchedule/index.ts:84 | the first index holding the week, or -1 when none does |
| TeachingSchedule.AccumulateTable | client/src/utils/admin/CreateModule/TeachingSchedule/index.ts:52-71 | after one more table, every activity's total and collected entries are those of the tables read so far |
| TeachingSchedule.PadDistribution | client/src/utils/admin/CreateModule/TeachingSchedule/index.ts:78-90 | the overwriting loop gives exactly Padded |
| TeachingSchedule.CollectTables | client/src/utils/admin/CreateModule/TeachingSchedule/index.ts:49-72 | every activity's total and collected entries are those of all tables |
| TeachingSchedule.PadActivities | client/src/utils/admin/CreateModule/TeachingSchedule/index.ts:75-92 | keeps every total, and pads exactly the activities that have a distribution |
| TeachingSchedule.TransformTemplateDataToSaveData | client/src/utils/admin/CreateModule/TeachingSchedule/index.ts:26-95 | the procedure gives exactly SaveData |
| TeachingSchedule.SavedDistributionsCoverAllWeeks | client/src/utils/admin/CreateModule/TeachingSchedule/index.ts:66-90 | an activity has a distribution exactly when some table has its row; that distribution covers weeks 1..totalWeeks |
| TeachingSchedule.CollectedPresence | client/src/utils/admin/CreateModule/TeachingSchedule/index.ts:66-69 | entries are collected for an activity exactly when some table read so far has its row |
| TeachingSchedule.SavedDistributionOfTemplate | client/src/utils/admin/CreateModule/TeachingSchedule/index.ts:49-72 | for a first-semester or whole-session template, an activity's distribution is its row (or both rows, weeks 1-15 then 16-33) |
| TeachingSchedule.SavedHoursAreDistributionTotal | client/src/utils/admin/CreateModule/TeachingSchedule/index.ts:61-64 | for these templates, an activity's saved hours are the total of its saved distribution |
| TeachingSchedule.KeptItems | client/src/utils/admin/CreateModule/TeachingSchedule/index.ts:106-113 | filtering keeps exactly the entries whose week passes |
| TeachingSchedule.LastHoursOfKept | client/src/utils/admin/CreateModule/TeachingSchedule/index.ts:106-113 | reading a week from a filtered distribution gives its hours when the week passes the filter, else 0 |
| TeachingSchedule.SplitDistributionItems | client/src/utils/admin/CreateModule/TeachingSchedule/index.ts:101-115 | the first part holds exactly the entries up to week 15, the second exactly those in weeks 16-33 |
| TeachingSchedule.WeekArray | client/src/utils/admin/CreateModule/TeachingSchedule/index.ts:117-130 | the week array has the requested number of weeks |
| TeachingSchedule.CreateWeekArray | client/src/utils/admin/CreateModule/TeachingSchedule/index.ts:117-130 | the filling loop gives exactly WeekArray: each week holds the last entry for it, or 0 |
| TeachingSchedule.SemesterData | client/src/utils/admin/CreateModule/TeachingSchedule/index.ts:166-177 | six rows of the requested number of weeks |
| TeachingSchedule.CreateSemesterData | client/src/utils/admin/CreateModule/TeachingSchedule/index.ts:166-177 | the six calls give exactly SemesterData |
| TeachingSchedule.FirstParts | client/src/utils/admin/CreateModule/TeachingSchedule/index.ts:135-164 | one first-semester part per activity |
| TeachingSchedule.SecondParts | client/src/utils/admin/CreateModule/TeachingSchedule/index.ts:135-164 | one second-semester part per activity |
| TeachingSchedule.TemplateData | client/src/utils/admin/CreateModule/TeachingSchedule/index.ts:179-237 | an unknown template type is an error; first gives one 6x15 table, second one 6x18 table, whole session a 6x15 and a 6x18 table |
| TeachingSchedule.TransformEditingDataToTemplateData | client/src/utils/admin/CreateModule/TeachingSchedule/index.ts:97-238 | the procedure gives exactly TemplateData |
| TeachingSchedule.ReadFirstHalf | client/src/utils/admin/CreateModule/TeachingSchedule/index.ts:106-108 | from a distribution covering weeks 1..n, the first part reads week w's hours for w <= 15 and 0 otherwise |
| TeachingSchedule.ReadSecondHalf | client/src/utils/admin/CreateModule/TeachingSchedule/index.ts:109-113 | the second part reads week w's hours for 15 < w <= 33 and 0 otherwise |
| TeachingSchedule.FirstTemplateRoundTrip | client/src/utils/admin/CreateModule/TeachingSchedule/index.ts:180-193 | saving a full first-semester grid and reading it back as first gives the same grid |
| TeachingSchedule.WholeSessionTemplateRoundTrip | client/src/utils/admin/CreateModule/TeachingSchedule/index.ts:209-234 | saving a full whole-session grid and reading it back as whole session gives the same grid |
| TeachingSchedule.SecondTemplateReadsShiftedWeeks | client/src/utils/admin/CreateModule/TeachingSchedule/index.ts:194-207 | a second-semester grid is saved as weeks 1-18 but read back from weeks 16-33: week i of the read-back holds the saved week 16 + i for i < 3, and 0 after that |
| TeachingSchedule.ZeroReadingWeeks | client/src/utils/admin/CreateModule/TeachingSchedule/index.ts:311-318 | the row keeps its length |
| TeachingSchedule.UpdateForReadingWeek | client/src/utils/admin/CreateModule/TeachingSchedule/index.ts:288-324 | the updated grid has the same shape as the input |
| TeachingSchedule.ReadingWeekCells | client/src/utils/admin/CreateModule/TeachingSchedule/index.ts:292-321 | a cell is 0 when its week (column + 1) is a reading week of its table, and is unchanged otherwise |
| TeachingSchedule.ReadingWeekIdempotent | client/src/utils/admin/CreateModule/TeachingSchedule/index.ts:288-324 | applying the reading-week update twice is the same as once |
| TeachingSchedule.HandleInputChange | client/src/utils/admin/CreateModule/TeachingSchedule/index.ts:240-286 | a reading week stores 0, empty text stores NaN, unparsable text changes nothing and calls no setter, and otherwise the parsed integer is stored; the new outer array is fresh but shares its tables and rows, so the edited row is changed in place |
| TeachingSchedule.HandleInputChangeCopying | client/src/utils/admin/CreateModule/TeachingSchedule/index.ts:249-250 | the corrected edit copies the outer array, the edited table and the edited row; the other tables and rows are shared; the new row is the old one with the one cell set, and the previous state is untouched |
| TeachingSchedule.SharedRowExhibit | client/src/utils/admin/CreateModule/TeachingSchedule/index.ts:250 | after an edit as written, the previous state's cell reads the new value (1 becomes 5) |
| ProgrammeDesigner.SpliceStart | client/src/utils/admin/ProgrammeDesigner/index.ts:25-33 | splice acts at a position within the list; a start inside the list is used as given and one past the end acts at the end |
| ProgrammeDesigner.RemoveAt | client/src/utils/admin/ProgrammeDesigner/index.ts:25-28 | removing one item shortens the list by one |
| ProgrammeDesigner.InsertAt | client/src/utils/admin/ProgrammeDesigner/index.ts:29-33 | inserting lengthens the list by one and puts the item at the clamped position |
| ProgrammeDesigner.RemoveAtKeepsOthers | client/src/utils/admin/ProgrammeDesigner/index.ts:25-28 | removal keeps every other item, each as often as before |
| ProgrammeDesigner.InsertAtAddsOne | client/src/utils/admin/ProgrammeDesigner/index.ts:29-33 | insertion adds exactly the new item |
| ProgrammeDesigner.RemoveUndoesInsert | client/src/utils/admin/ProgrammeDesigner/index.ts:29-33 | removing the item just inserted gives the list back |
| ProgrammeDesigner.InsertUndoesRemove | client/src/utils/admin/ProgrammeDesigner/index.ts:25-28 | putting a removed item back where it was gives the list back |
| ProgrammeDesigner.MoveIsPermutation | client/src/utils/admin/ProgrammeDesigner/index.ts:24-34 | a move within a list keeps its length and items and puts the dragged item at the destination |
| ProgrammeDesigner.MoveBack | client/src/utils/admin/ProgrammeDesigner/index.ts:24-34 | dragging the item back to where it came from restores the list |
| ProgrammeDesigner.CrossMoveConserves | client/src/utils/admin/ProgrammeDesigner/index.ts:44-50 | a move between two lists neither loses nor duplicates an item |
| ProgrammeDesigner.HandleOnDragEnd | client/src/utils/admin/ProgrammeDesigner/index.ts:8-63 | a drop outside every list changes nothing and calls no setter; a drop in the same list moves the item within that programme only; a drop in another list moves the id from the source to the destination programme and re-parents the first instance with that id, when both programmes exist, and otherwise changes nothing; both setters receive the same objects |

## Left out

- Reading modules from the database (`Module.find`) is left out. The modules are a parameter of the aggregation.
- Console logging is left out.
- The `async`/`await` plumbing and the `try`/`catch` that rethrows are modelled only as the error value they produce.
- Floating point is not modelled: hours are exact reals. Binary rounding of values like 0.1 is not captured, and `NaN` in the engine is not modelled.
- Helpers.RoundToNearestHalf: helpers.js is not part of this model. Its result is taken to be Math.round(2x)/2. Proofs use only that the result is a multiple of one half within a quarter hour.
- Helpers.SafeDivide: likewise; division by 0 is taken to give 0. Proofs use only the non-zero case.
- The order of keys in JavaScript objects is not modelled:
  - a schedule's activities are a sequence;
  - a graph row is a map from key to cell.
- The engine's inputs are taken to have the documented types. Schemas and validation are not part of this model.
- A `steady` item with no released lead would compute a `NaN` increment. That increment is never used, because the loop after the start week is empty (see Preparation.SteadyWithoutLeadIsOneWeek).
- ProgrammeDesigner.HandleOnDragEnd requires that the source index names an item of the source list. The drag-and-drop library only reports drags of rendered items. Removing from an empty position, which would insert `undefined`, is not modelled.
- ProgrammeDesigner.HandleOnDragEnd: the programmes' id lists are values that the handler replaces. The cross-list case, where splice works in place on an array the previous state shares, is not modelled as aliasing of that array.
- `saveAllProgrammes`, `handleSaveAllProgrammes` and `fetchTemplateData` are left out. They are logging, event handling and a network request.
- TeachingSchedule.HandleInputChange requires the table, row and column to exist. The code that creates a missing table or row is not modelled, because the editor renders an input only for an existing cell.
- TeachingSchedule.SaveData takes a grid of sequences. Sparse arrays and rows beyond the sixth are not modelled; the sixth-row cut-off follows `activityKeys`.
- TeachingSchedule.TemplateData requires six saved activities. An activity missing from the saved object is modelled as one without a distribution.
- ClientNumbers.ParseInt models digits only, with exact integers. It does not model the precision loss of very long digit strings, or `Infinity`.
- TeachingSchedule.SemesterHeading upper-cases ASCII letters only.
- React components and styling are outside the modelled core.

## Findings

| source | as written | input that shows it | evidently intended | confidence | as-written member | corrected member |
|---|---|---|---|---|---|---|
| client/src/utils/admin/CreateModule/TeachingSchedule/index.ts:249-250 | `[...templateData]` copies only the outer array, so the cell write changes the row that the previous state still holds | a 1x1x1 grid holding 1, edited to "5": the previous state's cell also reads 5 | a copy of the edited table and row, leaving the previous state untouched, as the comment on line 249 says | not executed | TeachingSchedule.SharedRowExhibit | TeachingSchedule.HandleInputChangeCopying |
