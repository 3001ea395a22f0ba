# life-os day engine, modelled in Dafny

life-os is a personal task and activity log. A user registers *habits*
(recurring tasks), *one-off* tasks and *actions* (kinds of loggable
activity). Each day they tick tasks done, log actions and write a short
review with a fulfillment score. This project models the rules that decide
what the app shows and stores, after the rows have been fetched:

- **Completion sets** (`TodayEntries`, `App.LoadTodayEntries`). These are the
  ids done on the selected day and the ids done on any day, built from
  task-entry rows.
- **Record view** (`TodayView`). It covers:
  - which habits, one-offs and actions are offered;
  - `compareTask` and the two sorted lists, sorted in place on a copied array;
  - the optimistic update of the done set when a box is ticked.
- **Register view** (`RegisterView`). It covers:
  - each sub-tab's task list, including the one-off "used up" filter;
  - clamping of priority (1..5) and volume (1..10);
  - the `due_date` rules;
  - keeping an action's `kind` and `title` equal.
- **Review view** (`ReviewView`). It covers:
  - the done lists and their volume sums;
  - loading the daily log, and validating and saving it.
- **Week view** (`WeekView`). The per-day counting loops over maps, the row
  assembly and the mean.
- **Legacy app** (`App`):
  - `num`;
  - the fulfillment score `calcFulfillmentNow`, over exact reals;
  - the legacy one-off rule;
  - the zero-filled week table and its average.
- **Navigation and badges** (`DayNav`, `PriorityBadge`, `VolBar`,
  `CategoryBadge`). Day clamping, and the values and colours the badges
  display.

Shared modules:
- `JsValues` models JSON values, `Number(...)`, `Math.trunc` and clamping.
- `JsStrings` models string `<`, `localeCompare` and `trim`.
- `Seqs` provides filter, last-match lookup and sums.
- `Records` holds the row types.

"Today" and the list of days are parameters. Every rule works on rows passed
in as sequences; an absent query result is `None`.

Design choices:
- A map built from a list keeps the last row per key, so lookups by id
  return the last match.
- The register view's save handlers are modelled as the patch objects they
  build.
- The record view's `toggleTaskDone` and the legacy app's `toggleTaskDone`
  apply the same update to the done set. One member, `ToggleTaskDone`,
  models both.

## Model

| member | source | states |
|---|---|---|
| JsValues.ToNumber | src/components/badges/PriorityBadge.tsx:7 | `Number(v)` of a JSON value is never infinite; it is finite exactly for numbers and null, a number maps to itself and null to 0 |
| JsValues.Trunc | src/components/badges/PriorityBadge.tsx:8 | `Math.trunc` rounds toward zero: the result is the integer within 1 of `x` on the side of 0 |
| JsValues.ClampInt | src/views/RegisterView.tsx:50-51 | `Math.min(hi, Math.max(lo, x))` lies in [lo, hi], keeps values already inside and maps values below to `lo`, above to `hi` |
| JsValues.ClampReal | src/App.tsx:341 | the same clamp over reals |
| JsValues.ClampIntIdempotent | src/views/RegisterView.tsx:50-51 | clamping twice equals clamping once |
| JsStrings.LessTrichotomy | src/lib/dayNav.ts:14-19 | string `<` is a strict total order: exactly one of `a < b`, `a == b`, `b < a` |
| JsStrings.Less | src/lib/dayNav.ts:14-19 | string `<`: character-wise lexicographic, a proper prefix first; its order properties are `LessIrreflexive`, `LessTrichotomy` and `LessTransitive` |
| JsStrings.LessOrEqual | src/lib/dayNav.ts:14 | string `<=`, defined as `!(b < a)`; `LessOrEqualIff` shows it is `<` or equality |
| JsStrings.LessTransitive | src/views/TodayView.tsx:209 | string `<` is transitive |
| JsStrings.LocaleCompare | src/views/TodayView.tsx:209 | the result is -1, 0 or 1; negative iff `a` sorts first, zero iff equal, positive iff `b` sorts first |
| JsStrings.Trim | src/views/RegisterView.tsx:288 | the result is a slice of the input; everything dropped is whitespace; it neither starts nor ends with whitespace; it is empty iff the input is blank |
| JsStrings.TrimIdempotent | src/views/RegisterView.tsx:525 | trimming a trimmed string changes nothing |
| Records.FindTask | src/views/WeekView.tsx:100 | the id lookup finds a task with that id, or none exactly when no task has it |
| Records.FindAction | src/views/ReviewView.tsx:98 | the same for actions |
| TodayEntries.DoneIds | src/lib/api/today.ts:23-26 | an id is done today iff some day row with that task id has status done |
| TodayEntries.TaskIds | src/lib/api/today.ts:37-38 | the any-day set holds exactly those ids that occur in the all-time rows |
| TodayEntries.CollectDoneTaskIds | src/lib/api/today.ts:23-26 | the `forEach` loop builds exactly `DoneIds` of the rows, and the empty set for absent data |
| TodayEntries.CollectTaskIds | src/lib/api/today.ts:37-38 | the `forEach` loop builds exactly `TaskIds` of the rows |
| TodayEntries.FetchTodayEntries | src/lib/api/today.ts:23-54 | the returned sets and entries are those of the rows; absent data yields empty sets and no entries |
| TodayEntries.NotDoneRowsIgnored | src/lib/api/today.ts:25 | rows with status todo or doing add nothing to the done set |
| TodayEntries.DoneTodayWithinAnyDay | src/lib/api/today.ts:23-38 | when the day's rows are among the all-time done rows, done today implies done on some day |
| DayNav.ClampDayToToday | src/lib/dayNav.ts:12-15 | returns `d` when `d <= today`, otherwise `today`; never later than today |
| DayNav.ClampIdempotent | src/lib/dayNav.ts:14 | clamping twice equals clamping once |
| DayNav.NoNextDayFromTodayOrLater | src/lib/dayNav.ts:14-19 | for any `d >= today`, the clamped day offers no next day |
| DayNav.CanGoNextDayIff | src/lib/dayNav.ts:17-20 | a next day is offered iff the day is strictly before today |
| DayNav.CanGoNextDay | src/lib/dayNav.ts:17-20 | `canGoNextDay`: the day is before today; `CanGoNextDayIff` and `NoNextDayFromTodayOrLater` state its meaning |
| PriorityBadge.DisplayValue | src/components/badges/PriorityBadge.tsx:7-8 | the value shown is an integer in 1..5; a non-finite, missing or null value, or one below 1, shows 1; 1 <= x < 5 shows its truncation; x >= 5 shows 5 |
| PriorityBadge.BadgeColors | src/components/badges/PriorityBadge.tsx:12-20 | every displayable value has a palette entry, and the colours come from it |
| PriorityBadge.GradesUnchanged | src/components/badges/PriorityBadge.tsx:8 | integers 1..5 display as themselves |
| PriorityBadge.PaletteDistinct | src/components/badges/PriorityBadge.tsx:12-18 | the five grades have five different colour sets |
| PriorityBadge.Examples | src/components/badges/PriorityBadge.tsx:8 | 4.9 shows 4, 0.5 shows 1, -3 shows 1, 9 shows 5, a missing value shows 1 |
| VolBar.DisplayValue | src/components/badges/VolBar.tsx:8-9 | with `max >= 0` the bar value lies in [0, max]; non-finite input shows 0; values in range are kept; below 0 shows 0, above max shows max |
| VolBar.Percent | src/components/badges/VolBar.tsx:10 | 0 when `max` is 0; otherwise `pct * max == v * 100`, in [0, 100] for `v` in [0, max] |
| VolBar.BarWithinBounds | src/components/badges/VolBar.tsx:9-10 | the bar's percentage always lies in [0, 100] for `max >= 0` |
| VolBar.DefaultMaxExamples | src/components/badges/VolBar.tsx:7-10 | with the default `max = 10`, 4 fills 40 percent, 12 fills the whole bar and a missing value none of it |
| CategoryBadge.ObjectGet | src/components/CategoryBadge.tsx:32-35 | reading a key of an object literal finds an own value iff the key was written, and `undefined` only when the key is neither written nor inherited |
| CategoryBadge.LabelAsWritten | src/components/CategoryBadge.tsx:6-35 | as written, every category that is not an inherited property name finds an own label |
| CategoryBadge.StyleAsWritten | src/components/CategoryBadge.tsx:6-32 | as written, the same holds for the style |
| CategoryBadge.InheritedKeyBypassesFallback | src/components/CategoryBadge.tsx:32-35 | as written, an inherited property name such as `toString` is not `undefined`, so the `?? other` fallback is skipped for label and style |
| CategoryBadge.ToStringCategoryHasNoLabel | src/components/CategoryBadge.tsx:35 | the category `toString` yields no own label |
| CategoryBadge.Label | src/components/CategoryBadge.tsx:6-35 | the label is one of the five labels; null reads as other; a known category shows its own label, any other the other label |
| CategoryBadge.Style | src/components/CategoryBadge.tsx:6-32 | the same for the style |
| CategoryBadge.LabelAndStyleAgree | src/components/CategoryBadge.tsx:32-35 | label and style always come from the same category |
| CategoryBadge.LabelsDistinct | src/components/CategoryBadge.tsx:8-14 | the five categories have five different labels |
| CategoryBadge.AsWrittenAgreesOutsideInheritedKeys | src/components/CategoryBadge.tsx:32-35 | away from inherited property names, the code as written and the corrected lookup agree |
| TodayView.ActiveHabits | src/views/TodayView.tsx:62 | exactly the active habits |
| TodayView.ActiveOneoffs | src/views/TodayView.tsx:63 | exactly the active one-offs |
| TodayView.ActiveActions | src/views/TodayView.tsx:64 | the actions offered for logging are exactly the active, non-hidden ones |
| TodayView.Habits | src/views/TodayView.tsx:72-104 | a task is listed iff it is an active habit and, when hidden, was done today or on some day |
| TodayView.VisibleOneoffs | src/views/TodayView.tsx:88-107 | an active one-off is listed iff it is hidden and done today, or it is shown and not (done on some day but not today) |
| TodayView.ShouldShowHabit | src/views/TodayView.tsx:72-79 | `shouldShowHabitInToday`: a shown habit always, a hidden one only when done today or on some day; its consequences are `Habits` and `HiddenUndoneHabitNotListed` |
| TodayView.ShouldShowOneoff | src/views/TodayView.tsx:88-101 | `shouldShowOneoffInToday`: a shown one-off unless done on another day only, a hidden one only when done today; its consequences are `VisibleOneoffs` and `NeverDoneOneoffListed` |
| TodayView.NeverDoneOneoffListed | src/views/TodayView.tsx:93-96 | a shown active one-off never done is always listed |
| TodayView.HiddenUndoneHabitNotListed | src/views/TodayView.tsx:73-78 | a hidden habit never done is not listed |
| TodayView.CompareTask | src/views/TodayView.tsx:196-212 | orders unticked before ticked, then higher priority, then lower volume, then larger id; 0 only when all four keys are equal |
| TodayView.CompareTaskAntisymmetric | src/views/TodayView.tsx:196-212 | swapping the arguments negates the result |
| TodayView.CompareTaskTransitive | src/views/TodayView.tsx:196-212 | "may precede" is transitive, so the comparator is a total preorder |
| TodayView.AdjacentSortedIsSorted | src/views/TodayView.tsx:214-215 | a list ordered at each adjacent pair is ordered at every pair |
| TodayView.Swap | src/views/TodayView.tsx:214-215 | exchanging two cells keeps the multiset of tasks |
| TodayView.InsertStep | src/views/TodayView.tsx:214-215 | one insertion step extends the ordered prefix by one, keeps the multiset and leaves the cells after `i` untouched |
| TodayView.SortInPlace | src/views/TodayView.tsx:214-215 | sorting the copied array leaves it ordered by `compareTask` and a permutation of its input |
| TodayView.SortTasks | src/views/TodayView.tsx:214-215 | the sorted copy is a permutation of the list and ordered by `compareTask` |
| TodayView.SortedHabits | src/views/TodayView.tsx:214 | `sortedHabits` is a permutation of `habits` ordered by `compareTask` |
| TodayView.SortedOneoffs | src/views/TodayView.tsx:215 | `sortedOneoffs` is a permutation of `visibleOneoffs` ordered by `compareTask` |
| TodayView.SortedByKeys | src/views/TodayView.tsx:196-215 | in a sorted list, ticked tasks never come before unticked ones, and within equal earlier keys priority descends, volume ascends and ids descend |
| TodayView.SortExample | src/views/TodayView.tsx:196-215 | B (5, 1, open), A (5, 3, open), C (2, 1, done) are listed in exactly that order |
| TodayView.ToggleTaskDone | src/views/TodayView.tsx:111-116 | ticking adds the id and unticking removes it; every other id keeps its membership (also src/App.tsx:293-298) |
| RegisterView.VisibleTasks | src/views/RegisterView.tsx:145-150 | a tab lists every task of its type, and a one-off only while it has never been done; neither active nor hidden flags are read |
| RegisterView.UsedUpOneoffs | src/views/RegisterView.tsx:148-149 | the one-offs done on some day |
| RegisterView.OneoffTabPartition | src/views/RegisterView.tsx:145-150 | the listed one-offs and the used-up one-offs together count every one-off exactly once |
| RegisterView.RegisterOneoffShownInToday | src/views/RegisterView.tsx:147-150 | an active, non-hidden one-off listed here is also listed in the record view (src/views/TodayView.tsx:93-97) |
| RegisterView.TodayOnlyOneoffs | src/views/RegisterView.tsx:147-150 | such a one-off is in the record view but not here exactly when it was done today (src/views/TodayView.tsx:93-97) |
| RegisterView.FormDueDate | src/views/RegisterView.tsx:330 | a habit gets no due date; a one-off gets the entered date, or none when the field is empty |
| RegisterView.SubmitTaskForm | src/views/RegisterView.tsx:325-331 | the submitted form carries the title and type as entered, priority clamped to 1..5 and volume to 1..10 (kept when inside, the nearer bound when outside), and the due-date rule |
| RegisterView.InsertedTask | src/views/RegisterView.tsx:39-56 | `addTask` stores priority in 1..5 and volume in 1..10, and a due date only for one-offs |
| RegisterView.InsertKeepsSubmittedForm | src/views/RegisterView.tsx:50-52 | the row inserted equals the form submitted: the second clamp has no effect (the form clamps at src/views/RegisterView.tsx lines 328-330) |
| RegisterView.SaveTaskPatch | src/views/RegisterView.tsx:286-293 | an edit keeps the old title when the new one is blank, else stores it trimmed; priority and volume kept when inside 1..5 and 1..10 and set to the nearer bound when outside; applies the due-date rule |
| RegisterView.FinalTaskPatch | src/views/RegisterView.tsx:417 | a habit patch never carries a due date; other patches pass through |
| RegisterView.ApplyTaskPatch | src/views/RegisterView.tsx:417-418 | writing a patch replaces exactly its fields and keeps id, active and hidden flags |
| RegisterView.SavedTaskWellFormed | src/views/RegisterView.tsx:286-293 | an edited task has priority 1..5, volume 1..10, no due date if a habit, a non-blank title if it had one, and `finalPatch` (src/views/RegisterView.tsx line 417) adds nothing |
| RegisterView.InitialKind | src/views/RegisterView.tsx:439 | the initial kind is `kind`, or the title when `kind` is null |
| RegisterView.FinalKind | src/views/RegisterView.tsx:525 | the trimmed input, or the trimmed initial kind when the input is blank; always already trimmed |
| RegisterView.SaveActionPatch | src/views/RegisterView.tsx:525-526 | the row's patch writes the same final kind to `kind` and `title` |
| RegisterView.MirrorTitle | src/views/RegisterView.tsx:613-614 | a string `kind` is copied into `title`; nothing else changes |
| RegisterView.ActionEditKindEqualsTitle | src/views/RegisterView.tsx:525-526 | an action edit stores `kind == title`, trimmed, from the input or the initial kind, and the mirroring at src/views/RegisterView.tsx lines 613-614 keeps them equal |
| RegisterView.SubmitActionForm | src/views/RegisterView.tsx:559-562 | nothing is inserted iff the kind is blank; otherwise the trimmed kind and the category |
| ReviewView.DoneHabits | src/views/ReviewView.tsx:94 | exactly the habit tasks done on the day, with multiplicity; `is_active` is not read |
| ReviewView.DoneOneoffs | src/views/ReviewView.tsx:95 | exactly the one-off tasks done on the day, with multiplicity |
| ReviewView.DoneSectionsPartition | src/views/ReviewView.tsx:94-95 | every done task is in exactly one of the two sections |
| ReviewView.DoneActionEntries | src/views/ReviewView.tsx:98-103 | an entry is kept iff its action exists (last row wins) and is active; absent data gives none |
| ReviewView.ShowsEntry | src/views/ReviewView.tsx:99-103 | the entry filter: its action is found (last row wins) and not archived; `ArchivedActionHidesEntries` states the negative case |
| ReviewView.DoneActionEntriesInOrder | src/views/ReviewView.tsx:99-103 | the filter keeps order: two batches are filtered batch by batch |
| ReviewView.ArchivedActionHidesEntries | src/views/ReviewView.tsx:100-102 | an entry whose action is missing or archived is never shown |
| ReviewView.VolumeTerm | src/views/ReviewView.tsx:106 | a numeric volume counts as itself, anything else as 0 |
| ReviewView.SumVolume | src/views/ReviewView.tsx:105-106 | `sumVolume`, the reduce of `VolumeTerm`; `SumVolumeAppend`, `SumVolumeIgnoresNonNumeric` and `SumVolumeBounds` state its properties |
| ReviewView.SumVolumeAppend | src/views/ReviewView.tsx:105-106 | the reduce is a fold: the sum of two parts is the sum of their sums |
| ReviewView.SumVolumeIgnoresNonNumeric | src/views/ReviewView.tsx:105-106 | dropping the items whose volume is not a number leaves the sum unchanged |
| ReviewView.SumVolumeBounds | src/views/ReviewView.tsx:105-106 | with numeric volumes in 1..10, the sum lies in [0, 10 per item] |
| ReviewView.SumVolumeNumericBounds | src/views/ReviewView.tsx:105-106 | with every volume a number in [lo, hi], the sum lies in [lo, hi] per item |
| ReviewView.TaskVolumeBounds | src/views/ReviewView.tsx:109-112 | with task volumes in 1..10, a section total lies between its count and ten times it |
| ReviewView.Summarize | src/views/ReviewView.tsx:108-115 | each count is the length of its list; the two task counts add up to the done tasks; at most one action count per entry; each volume total is `SumVolume` of its list (`TaskVolume` for the two task sections, `EntryVolume` for the actions), so the `SumVolume` lemmas bound what the view shows |
| ReviewView.LoadReview | src/views/ReviewView.tsx:87-88 | a missing note loads as "", a fulfillment that is not a number as 0, others unchanged |
| ReviewView.ValidateFulfillment | src/views/ReviewView.tsx:120-121 | a value is stored iff the input is finite and in [1, 100]; it is then its truncation, an integer in 1..100 |
| ReviewView.ValidateFulfillmentExamples | src/views/ReviewView.tsx:121 | 57.9 stores 57, 100 stores 100; 0, 101, 100.5 and NaN store null |
| ReviewView.SaveReview | src/views/ReviewView.tsx:120-128 | the note is stored as null iff blank, otherwise trimmed; the fulfillment as validated |
| ReviewView.Stored | src/views/ReviewView.tsx:124-129 | the row read back holds the note and the fulfillment, null when absent |
| ReviewView.SaveLoadSave | src/views/ReviewView.tsx:87-128 | saving, reloading and saving again stores the same row |
| WeekView.HabitTotal | src/views/WeekView.tsx:58-61 | the total equals the number of active habits, the record view's habit pool |
| WeekView.DayFulfillment | src/views/WeekView.tsx:123-133 | a day's fulfillment is a number logged for that day, and none when no log exists |
| WeekView.DayFulfillmentStep | src/views/WeekView.tsx:123-125 | a later log of a day overrides earlier ones; logs of other days change nothing |
| WeekView.DoneCountIsFilterLength | src/views/WeekView.tsx:107-117 | a day's tally equals the number of rows that are done, of that day, with a known task of that type |
| WeekView.DoneCountsSplitByType | src/views/WeekView.tsx:107-117 | habit and one-off tallies of a day add up to its done rows with a known task |
| WeekView.IgnoredRowChangesNothing | src/views/WeekView.tsx:108-110 | rows not done, or with an unknown task, change no tally |
| WeekView.GetOrZero | src/views/WeekView.tsx:129-132 | `get(d) ?? 0` is the stored count, or 0 for a missing day |
| WeekView.GetOrNull | src/views/WeekView.tsx:133 | `get(d) ?? null` is the stored value, or none |
| WeekView.CountDoneEntries | src/views/WeekView.tsx:107-117 | after the loop, each day's habit and one-off counts equal the tallies of the rows |
| WeekView.CountActionEntries | src/views/WeekView.tsx:119-121 | after the loop, each day's count equals the number of action entries on that day |
| WeekView.CollectFulfillments | src/views/WeekView.tsx:123-125 | after the loop, each day maps to its last log's number, or none |
| WeekView.AssembleRows | src/views/WeekView.tsx:127-134 | one row per listed day, in order, each read from the maps with 0 or null defaults |
| WeekView.WeekRows | src/views/WeekView.tsx:100-134 | one row per day, in order, holding that day's tallies, the habit total and the fulfillment |
| WeekView.EmptyDayIsZero | src/views/WeekView.tsx:127-134 | a day without rows shows zero counts and no fulfillment |
| WeekView.Numeric | src/views/WeekView.tsx:146 | exactly the rows with a numeric fulfillment |
| WeekView.AvgWithinBounds | src/views/WeekView.tsx:145-149 | with numeric fulfillments in [lo, hi] and at least one of them, the mean lies in [lo, hi] |
| WeekView.Avg | src/views/WeekView.tsx:145-149 | `avg`, the mean of the numeric fulfillments or 0; `AvgWithinBounds`, `AvgIgnoresMissing` and `AvgOfNone` state its properties |
| WeekView.AvgIgnoresMissing | src/views/WeekView.tsx:145-149 | rows without a fulfillment do not move the mean |
| WeekView.AvgOfNone | src/views/WeekView.tsx:147 | with no numeric fulfillment the mean is 0 |
| App.Num | src/App.tsx:9-12 | `Number(v)` when finite, the fallback otherwise; null reads as 0 |
| App.FindLegacyAction | src/App.tsx:333 | the id lookup finds an action with that id, or none exactly when no action has it |
| App.Weight | src/App.tsx:340-341 | satisfaction clamped to 1..5 over 5, so in [0.2, 1]: below 1 weighs 0.2, above 5 weighs 1, in range `s / 5`; a missing satisfaction weighs 0.6 |
| App.ActionTerm | src/App.tsx:336-342 | an entry adds nothing when its action is missing or archived, else want score times weight |
| App.ActionTotalSkipsUncounted | src/App.tsx:335-343 | dropping the entries of missing or archived actions leaves the action total unchanged |
| App.ActionTotalBounds | src/App.tsx:335-343 | with want scores in [0, hi], the action total lies in [0, hi per entry] |
| App.ActionTermBounds | src/App.tsx:336-342 | with want scores in [0, hi], one entry adds between 0 and hi |
| App.TaskTotalNonNegative | src/App.tsx:329-331 | with non-negative must scores, `taskTotal` is non-negative |
| App.TaskTotal | src/App.tsx:329-331 | `taskTotal`, the must scores of the active tasks done today; `TaskTotalNonNegative` bounds it |
| App.ActionTotal | src/App.tsx:335-343 | `actionTotal`, the sum of `ActionTerm` over the entries; `ActionTotalBounds` and `ActionTotalSkipsUncounted` state its properties |
| App.Blend | src/App.tsx:345-350 | with a total of 0, the ratios, balance factor and fulfillment are all 0; otherwise each ratio times the total gives its part |
| App.RatioFacts | src/App.tsx:346-347 | for non-negative totals with a positive sum, the ratios are non-negative and sum to 1 |
| App.BlendBalanced | src/App.tsx:345-350 | with non-negative totals and a positive sum, the ratios sum to 1 and the balance factor is in [0, 1]; fulfillment is half the total plus the smaller total, hence between half the total and the total |
| App.BlendSymmetric | src/App.tsx:346-350 | swapping the two totals swaps the ratios and keeps the balance factor and fulfillment |
| App.BlendExample | src/App.tsx:345-350 | totals 3 and 4 give balance factor 6/7 and fulfillment 6.5 |
| App.CalcFulfillmentNow | src/App.tsx:323-354 | the totals are `taskTotal` and `actionTotal` and the whole breakdown is `Blend` of them; with non-negative scores, fulfillment lies between half the total score and the total score |
| App.LoadTodayEntries | src/App.tsx:128-161 | the done sets are those of the shared loader; `doneActionIds` holds exactly the actions of the day's entries |
| App.LegacyVisibleOneoffs | src/App.tsx:463-465 | an active one-off is listed iff never done on any day or done today; `is_hidden` is not read |
| App.LegacyAgreesOnShownTasks | src/App.tsx:463-465 | on non-hidden tasks the legacy rule and the record view's rule agree (src/views/TodayView.tsx:93-97) |
| App.LegacyListsHiddenTasks | src/App.tsx:463-465 | a hidden one-off never done is listed by the legacy rule but not by the record view |
| App.LastLog | src/App.tsx:1314 | the log a day is filled from is the last log of that day, or none exactly when no log has that day |
| App.MapGet | src/App.tsx:1316 | `map.get(d)` is the stored log, or none |
| App.FillRow | src/App.tsx:1316-1323 | a day without a log gets 0 totals and null satisfaction; a day with a log keeps its fulfillment, task total, action total and satisfaction, a missing number reading 0 |
| App.ZeroFill | src/App.tsx:1313-1324 | one row per listed day, in order, each filled from the last log of that day |
| App.LegacyAvgWithinBounds | src/App.tsx:1333-1335 | with fulfillments in [lo, hi], the legacy average lies in [lo, hi] |
| App.LegacyAvg | src/App.tsx:1333-1335 | the legacy `avg` over every row, 0 for no rows; `LegacyAvgWithinBounds` and `EmptyDayLowersAvg` state its properties |
| App.EmptyDayLowersAvg | src/App.tsx:1333-1335 | the average divides by all rows, so adding a day without a log never raises a non-negative average |

## Left out

- Supabase queries, upserts, deletes, authentication and error handling are not modelled. Every rule receives the fetched rows as sequences, and an absent result as `None`.
- The JS clock and time zone are parameters. This covers the `todayJST` value (src/lib/day.ts), `addDaysJST`, `addDaysISO` and `lastNDays`.
- Concurrency is not modelled:
  - the stale-response guard in the review view;
  - `Promise.all` in the week view;
  - the reload that rolls back a failed optimistic toggle.
- Floating point: scores, averages and percentages are exact reals. IEEE rounding and `toFixed` rendering are not modelled.
- Strings are sequences of Unicode code points, while JS compares UTF-16 code units. The two orders differ only for characters outside the Basic Multilingual Plane.
- JsStrings.LocaleCompare: ordered by plain character order, not by the locale's collation.
- Records.Task: `priority` and `volume` are integers, as the database columns are. A null column, which the edit row reads as 3 or 5 (src/views/RegisterView.tsx:155-156), is not modelled. The edit row starts from the stored values and its range inputs change them only when moved, so a stored out-of-range value reaches the save unchanged; `SaveTaskPatch` states the clamp for every integer. The add form starts at 3 and 5 (src/views/RegisterView.tsx:141-142) and only its range inputs change them.
- Records.Action: `isActive` is a plain boolean, as the row type declares it. A null `is_active` column is not modelled; it would count as active where the source tests `is_active !== false` (src/views/ReviewView.tsx:102, src/App.tsx:338) and as inactive where it tests truthiness (src/views/TodayView.tsx:64).
- JsValues.ToNumber: a JSON string is treated as non-numeric. `Number("12")` converting a numeric string is not modelled; the columns concerned are numeric.
- App.Weight: satisfaction is a number or null (the column's type). A non-numeric satisfaction, which would make the score `NaN`, is not modelled.
- App.LegacyAvgWithinBounds: fulfillment, task and action totals of the legacy logs are numbers or null. `Number(x || 0)` on a non-numeric value is not modelled.
- TodayView.SortTasks: states that the result is a permutation ordered by `compareTask`, not that the sort is stable. `Array.prototype.sort` is stable, so two tasks that compare equal keep their input order; `compareTask` returns 0 only when the ids are equal too (src/views/TodayView.tsx:209-211), so such ties need two rows with the same id.
- The debug `console.log` at the start of `calcFulfillmentNow` (src/App.tsx:324-328) is output only and is not modelled.
- WeekView.HabitTotal: no claim that `habitDone <= habitTotal`. The week view counts done entries of archived habits, while the total counts active ones only.
- RegisterView.VisibleTasks: makes no claim about `is_hidden` or `is_active`. The register list reads neither.
- RegisterView.SubmitTaskForm: the title is stored as typed. Blank titles are blocked only by the disabled submit button, which is presentation.
- The presentational components are not modelled: the app shell, tabs, cards, toasts, buttons and style helpers. Nor are the release notes or the type declarations beyond the fields used here.

## Findings

| source | as written | input that shows it | evidently intended | confidence | as-written member | corrected member |
|---|---|---|---|---|---|---|
| src/components/CategoryBadge.tsx:32-35 | `labelMap[c] ?? labelMap.other` and `styleMap[c] ?? styleMap.other` fall back only when the lookup is `undefined`, but keys inherited from `Object.prototype` are not undefined | category `"toString"` (or `"constructor"`, `"valueOf"`, ...) renders a function as the label and spreads no style | an unknown category shows the "その他" label and the other style | not executed | CategoryBadge.InheritedKeyBypassesFallback | CategoryBadge.Label |
