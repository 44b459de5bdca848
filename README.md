# Studybuddy dashboard logic, modelled in Dafny

Studybuddy is a student dashboard written in React. This project models the
logic of four of its components and proves properties about them:

- **DrilldownMonthPie**: the pie chart of tasks per month.
  - Each task's due date is sorted into one of four outcomes: no date, unparseable, another year, or one of the twelve months of the current year.
  - The twelve-month data set, the non-empty months, the legend percentages and the yearly total are derived from those counts.
  - Clicking a slice drills into the completed/incomplete breakdown of that month. "Back to Year" leaves it.
- **TasksTable**: the task list.
  - Adding a task goes through the form and is rejected when the due date is in the past.
  - A task can be toggled completed.
  - Deleting goes through a two-step confirm dialog.
  - The table is paginated: the pager buttons, the rows-per-page choice, the visible slice of rows and the filler rows of the last page.
- **MetricsCards**: the "upcoming" cards. These are the first three incomplete tasks after a stable sort by due date.
- **QuoteCard**: a carousel that keeps one `index` into the quote list. It is moved by a timer, by swiping or dragging, and by the indicator dots.

Files:

- `arithmetic.dfy`: shared facts about multiplication, division and remainders.
- `task.dfy`: the task record and the id set.
- `iso_date.dfy`: JavaScript string `<`. It is proved equal to calendar order on `YYYY-MM-DD` dates, the calendar date format of ISO 8601:2004, section 4.1.2.2.
- `drilldown_month_pie.dfy`, `tasks_table.dfy`, `metrics_cards.dfy`, `quote_card.dfy`: one module per component.

How each component is modelled:

- The counting loops are `method`s with loop invariants. Each is proved equal to a recursive specification function, and the properties are lemmas about those functions.
- The stateful parts are classes whose methods change only the fields they name. These are the table's form/dialog/pagination state, the pie's selected month and the carousel index.
- The store transformations (toggle, delete) are pure functions with lemmas relating them.

External inputs become parameters:

- the date library's parser: `DateParser`;
- the `Date` day number: `DayKey`;
- today's date;
- the pie's current year (`new Date().getFullYear()`): the `year` parameter of `Classify`, `CountByMonth` and the members built on them;
- the random id of a new task.

## Model

| member | source | states |
|---|---|---|
| DrilldownMonthPie.ParseDue | src/components/DrilldownMonthPie.jsx:21-22 | an empty due date is never parsed and yields no month; a parsed month lies in 0..11 |
| DrilldownMonthPie.Classify | src/components/DrilldownMonthPie.jsx:64-71 | a task has no date, is unparseable, is in another year, or is in month m of the current year, each exactly under the condition the loop tests |
| DrilldownMonthPie.InvalidDates | src/components/DrilldownMonthPie.jsx:66-67 | the invalid list holds exactly the tasks with a nonempty, unparseable due date, with id and date |
| DrilldownMonthPie.InvalidDatesComeFromTasks | src/components/DrilldownMonthPie.jsx:66-67 | every invalid entry carries the id and due date of some task in the list |
| DrilldownMonthPie.MonthCountsStep | src/components/DrilldownMonthPie.jsx:70-71 | one more task raises the count of its own month by one and no other count |
| DrilldownMonthPie.TallyTask | src/components/DrilldownMonthPie.jsx:63-74 | one loop pass leaves the counters and invalid list equal to those of the tasks seen so far plus this one |
| DrilldownMonthPie.CountByMonth | src/components/DrilldownMonthPie.jsx:59-77 | the twelve counters and the invalid list equal the per-month counts and invalid dates of the whole task list, and the counters add up to the tasks dated this year |
| DrilldownMonthPie.SumZeroIff | src/components/DrilldownMonthPie.jsx:93-97 | the yearly total is 0 exactly when every month's count is 0, the case where the legend is empty |
| DrilldownMonthPie.SumBump | src/components/DrilldownMonthPie.jsx:71 | raising one counter by one raises the total by one |
| DrilldownMonthPie.SumOfZeros | src/components/DrilldownMonthPie.jsx:60 | twelve zero counters total zero |
| DrilldownMonthPie.MonthCountsSumIsInYearCount | src/components/DrilldownMonthPie.jsx:93 | the yearly total is the number of tasks dated in the current year |
| DrilldownMonthPie.EveryTaskAccountedOnce | src/components/DrilldownMonthPie.jsx:62-75 | no-date tasks, invalid entries, other-year tasks and the month counts together number exactly the tasks |
| DrilldownMonthPie.InvalidDatesCount | src/components/DrilldownMonthPie.jsx:66-67 | the invalid list has one entry per unparseable task |
| DrilldownMonthPie.BucketsPartition | src/components/DrilldownMonthPie.jsx:62-75 | the four outcomes partition the task list |
| DrilldownMonthPie.MonthlyStatusData | src/components/DrilldownMonthPie.jsx:107-121 | no selection gives no entries; a selection gives a "Completed" and an "Incomplete" entry, which add up to the selected month's count, or to 0 for a month outside 0..11 |
| DrilldownMonthPie.MonthlyStatus | src/components/DrilldownMonthPie.jsx:107-121 | no selection gives an empty breakdown; a selection gives "Completed" and "Incomplete" entries counting the selected month's tasks by status |
| DrilldownMonthPie.StatusCountsSplitBucket | src/components/DrilldownMonthPie.jsx:114-115 | completed plus incomplete equals the month's count |
| DrilldownMonthPie.StatusCountsOutOfRange | src/components/DrilldownMonthPie.jsx:114 | a selection outside 0..11 counts no task |
| DrilldownMonthPie.SelectedMonthTotal | src/components/DrilldownMonthPie.jsx:124-127 | the total is at least every entry's value, and is 0 exactly when every entry is 0 |
| DrilldownMonthPie.SelectedMonthTotalMatchesCount | src/components/DrilldownMonthPie.jsx:124-127 | the breakdown total equals the pie's count for the selected month |
| DrilldownMonthPie.FullYearData | src/components/DrilldownMonthPie.jsx:80-87 | twelve slices, slice i for month i with its name, count and colour |
| DrilldownMonthPie.NonEmptyMonths | src/components/DrilldownMonthPie.jsx:90 | a slice is kept iff its value is positive |
| DrilldownMonthPie.NonEmptyMonthsKeepOrder | src/components/DrilldownMonthPie.jsx:89-90 | filtering keeps the slices in ascending month order |
| DrilldownMonthPie.NonEmptyMonthsKeepTotal | src/components/DrilldownMonthPie.jsx:90-93 | dropping empty months does not change the total |
| DrilldownMonthPie.FullYearTotal | src/components/DrilldownMonthPie.jsx:80-93 | the slices' total equals the counters' total |
| DrilldownMonthPie.FilteredSlicesAreNonEmptyMonths | src/components/DrilldownMonthPie.jsx:90 | every shown slice is a month with a positive count, with that count |
| DrilldownMonthPie.FilteredDataHasEveryNonEmptyMonth | src/components/DrilldownMonthPie.jsx:90 | every month with a positive count has a slice |
| DrilldownMonthPie.FilteredDataKeepsTotal | src/components/DrilldownMonthPie.jsx:90-93 | the shown slices add up to the yearly total |
| DrilldownMonthPie.RoundedPercent | src/components/DrilldownMonthPie.jsx:101 | the percentage is the integer nearest to 100·value/total, halves rounded up, and lies in 0..100 for a share |
| DrilldownMonthPie.TooltipPercent | src/components/DrilldownMonthPie.jsx:209 | the tooltip shows 0 when the total is 0, and the rounded share otherwise |
| DrilldownMonthPie.LegendPayload | src/components/DrilldownMonthPie.jsx:96-104 | empty when the total is 0; otherwise one entry per shown slice with its month, name, count and rounded percentage |
| DrilldownMonthPie.PercentSumBounds | src/components/DrilldownMonthPie.jsx:101 | each entry's rounding error is at most half a point, so the sum errs by at most half a point per entry |
| DrilldownMonthPie.LegendEntriesAreShares | src/components/DrilldownMonthPie.jsx:96-104 | the legend is empty iff the yearly total is 0; each entry names a month 0..11 whose positive count is the entry's value, and its percentage is that count's rounded share, in 0..100 |
| DrilldownMonthPie.LegendPercentagesNearHundred | src/components/DrilldownMonthPie.jsx:96-104 | the legend percentages sum to 100 within half a point per entry |
| DrilldownMonthPie.PositiveSumHasPositive | src/components/DrilldownMonthPie.jsx:97 | a positive total has a positive count, so a nonzero total never gives an empty legend |
| DrilldownMonthPie.ExtractMonthIndex | src/components/DrilldownMonthPie.jsx:146-150 | the `??` chain takes the first non-nullish field: the slice's month index, then the event's, then for an array the first element's, else `null`; a non-array payload ends in `false`, not `null` |
| DrilldownMonthPie.MonthSelection.constructor | src/components/DrilldownMonthPie.jsx:54 | nothing is selected at first |
| DrilldownMonthPie.MonthSelection.SliceClick | src/components/DrilldownMonthPie.jsx:144-155 | a numeric month index becomes the selection; anything else leaves it unchanged |
| DrilldownMonthPie.MonthSelection.BackToYear | src/components/DrilldownMonthPie.jsx:262 | "Back to Year" clears the selection |
| IsoDate.StringLess | src/components/TasksTable.jsx:83 | `a < b` on strings: a proper prefix is less, a smaller first character decides, and no string is less than itself |
| IsoDate.StringLessAsymmetric | src/components/TasksTable.jsx:83 | two strings are never each less than the other |
| IsoDate.StringLessConcat | src/components/TasksTable.jsx:83 | comparing strings with prefixes of equal length: the prefixes decide unless equal |
| IsoDate.DigitsOrder | src/components/TasksTable.jsx:83 | on digit strings of one length, string order is numeric order and string equality is numeric equality |
| IsoDate.IsoOrderIsCalendarOrder | src/components/TasksTable.jsx:71-83 | for `YYYY-MM-DD` strings, `dueDate < today` holds iff the due date is an earlier calendar day |
| TasksTable.Toggled | src/components/TasksTable.jsx:102-105 | the toggled store has the same length |
| TasksTable.WithoutId | src/components/TasksTable.jsx:113 | the filtered store holds exactly the tasks whose id differs |
| TasksTable.ToggledFlipsOnlyMatches | src/components/TasksTable.jsx:104 | tasks with the id have their completion flipped and keep every other field; all other tasks are unchanged |
| TasksTable.ToggledUnknownIdIsNoOp | src/components/TasksTable.jsx:104 | toggling an id no task has changes nothing |
| TasksTable.ToggledTwiceIsIdentity | src/components/TasksTable.jsx:102-105 | toggling twice restores the store |
| TasksTable.WithoutIdKeepsOrder | src/components/TasksTable.jsx:113 | deletion acts on each part of a split store separately, so order is kept |
| TasksTable.WithoutUnknownIdIsNoOp | src/components/TasksTable.jsx:113 | deleting an absent id changes nothing |
| TasksTable.WithoutIdRemovesOne | src/components/TasksTable.jsx:113 | with unique ids, deleting task i removes exactly position i |
| TasksTable.DeleteCommutesWithToggle | src/components/TasksTable.jsx:102-116 | toggling and deleting commute |
| TasksTable.IdsOfToggled | src/components/TasksTable.jsx:102-105 | toggling keeps the store's id set |
| TasksTable.IdsOfWithoutId | src/components/TasksTable.jsx:112-113 | deleting an id removes exactly that id from the store's id set |
| TasksTable.IdsOfAppend | src/components/TasksTable.jsx:88-96 | appending the new task adds exactly its id to the store's id set |
| TasksTable.ToggledKeepsUniqueIds | src/components/TasksTable.jsx:102-105 | toggling keeps ids unique |
| TasksTable.WithoutIdKeepsUniqueIds | src/components/TasksTable.jsx:113 | deleting keeps ids unique |
| TasksTable.CeilDiv | src/components/TasksTable.jsx:36 | `Math.ceil(a / b)` for either sign of b, as the bracket of the real quotient |
| TasksTable.CeilDivSign | src/components/TasksTable.jsx:36 | the ceiling is at most 0 for "All" (-1) or no tasks, and at least 1 otherwise |
| TasksTable.LastPage | src/components/TasksTable.jsx:36 | the last page is never negative; it is 0 with no tasks or "All"; otherwise it is the page holding the last task |
| TasksTable.Target | src/components/TasksTable.jsx:40-51 | from a page in 0..lastPage, an enabled button targets a different page in 0..lastPage |
| TasksTable.DisabledIffStuck | src/components/TasksTable.jsx:40-51 | from a page in 0..lastPage, a button is disabled exactly when its target would be the current page or lie outside 0..lastPage |
| TasksTable.PagerStaysInRange | src/components/TasksTable.jsx:40-51 | from a page in 0..lastPage, an enabled pager button lands on a page in 0..lastPage, and with a page size that page still holds a task; previous and next move by exactly one page |
| TasksTable.Slice | src/components/TasksTable.jsx:167 | `slice(start, end)` clamps to the list and returns the elements from start on |
| TasksTable.EmptyRows | src/components/TasksTable.jsx:123-124 | the filler row count is never negative, and is 0 on the first page and for "All" |
| TasksTable.VisibleRows | src/components/TasksTable.jsx:166-168 | "All" shows the whole store; a page size shows at most that many rows, the store's rows from page·size on, clamped to the store's end |
| TasksTable.PageRow | src/components/TasksTable.jsx:166-168 | row k of page p is task p·rowsPerPage + k |
| TasksTable.EveryTaskOnItsPage | src/components/TasksTable.jsx:166-168 | "All" shows every task; with a page size every task appears on exactly the page its position gives |
| TasksTable.FillerCompletesPage | src/components/TasksTable.jsx:123-124 | past the first page, the visible rows and the filler rows together fill the page |
| TasksTable.DeleteCanLeavePagePastLast | src/components/TasksTable.jsx:112-124 | with one task more than a page holds, deleting the last task on page 1 leaves page 1 past the new last page 0: no rows, a full page of filler, "previous" enabled and "last page" disabled |
| TasksTable.TasksTable.constructor | src/components/TasksTable.jsx:59-71 | empty form, page 0, five rows per page, dialog closed, nothing pending |
| TasksTable.TasksTable.SetTaskName | src/components/TasksTable.jsx:142 | the field takes the typed value and nothing else changes |
| TasksTable.TasksTable.SetDueDate | src/components/TasksTable.jsx:143 | the field takes the typed value and nothing else changes |
| TasksTable.TasksTable.SetSubject | src/components/TasksTable.jsx:144 | the field takes the typed value and nothing else changes |
| TasksTable.TasksTable.AddTask | src/components/TasksTable.jsx:81-100 | an empty name or date is ignored and a past date rejected, both leaving the store and form unchanged; otherwise the new incomplete task is appended and the form cleared |
| TasksTable.TasksTable.ToggleComplete | src/components/TasksTable.jsx:102-105 | the store becomes its toggled version |
| TasksTable.TasksTable.DeleteClick | src/components/TasksTable.jsx:107-110 | the task becomes pending and the dialog opens; the store is untouched |
| TasksTable.TasksTable.ConfirmDelete | src/components/TasksTable.jsx:112-116 | the pending task's id is removed from the store, then the dialog closes and nothing is pending |
| TasksTable.TasksTable.CancelDelete | src/components/TasksTable.jsx:118-121 | the dialog closes, nothing is pending, and the store is untouched |
| TasksTable.TasksTable.PressPager | src/components/TasksTable.jsx:40-51 | an enabled pager button sets the page to its target |
| TasksTable.TasksTable.ChangeRowsPerPage | src/components/TasksTable.jsx:76-79 | the chosen size is stored and the page returns to 0 |
| MetricsCards.Incomplete | src/components/MetricsCards.jsx:10 | no longer than the store; holds exactly the incomplete tasks; empty iff every task is completed |
| MetricsCards.IncompleteMultiplicity | src/components/MetricsCards.jsx:10 | each incomplete task keeps every one of its copies, a completed task keeps none |
| MetricsCards.IncompleteSubMultiset | src/components/MetricsCards.jsx:10 | the filtered list is a sub-multiset of the store |
| MetricsCards.IncompleteConcat | src/components/MetricsCards.jsx:10 | the filter acts on each part of a split store separately, so it keeps store order |
| MetricsCards.IncompleteCons | src/components/MetricsCards.jsx:10 | a leading task is kept exactly when it is incomplete |
| MetricsCards.Insert | src/components/MetricsCards.jsx:11 | inserting adds exactly one copy of the task |
| MetricsCards.SortedCons | src/components/MetricsCards.jsx:11 | a head due no later than a sorted tail gives a sorted list |
| MetricsCards.InsertKeepsSorted | src/components/MetricsCards.jsx:11 | insertion keeps a list sorted by due day |
| MetricsCards.SortByDue | src/components/MetricsCards.jsx:11 | the sort is a permutation in ascending due-day order |
| MetricsCards.Upcoming | src/components/MetricsCards.jsx:9-12 | at most three incomplete tasks, min(3, incomplete count) of them, sorted; empty iff all tasks are completed |
| MetricsCards.PrefixSubMultiset | src/components/MetricsCards.jsx:12 | `slice(0, n)` takes only elements of the list |
| MetricsCards.UpcomingAreSoonest | src/components/MetricsCards.jsx:9-12 | no incomplete task left out is due before a shown one |
| MetricsCards.DueOnConcat | src/components/MetricsCards.jsx:11-12 | the tasks due on a given day in a concatenation come from each part in turn |
| MetricsCards.InsertKeepsTies | src/components/MetricsCards.jsx:11 | insertion puts the new task ahead of the tasks due on its day and reorders no other day |
| MetricsCards.SortKeepsTies | src/components/MetricsCards.jsx:11 | the sort is stable: tasks due on one day keep their order |
| MetricsCards.UpcomingKeepsTies | src/components/MetricsCards.jsx:9-12 | the shown tasks of any one day are a prefix of that day's incomplete tasks, in store order |
| QuoteCard.Advance | src/components/QuoteCard.jsx:26 | the timer step stays in 0..len-1, moves to the next quote and wraps from the last to the first |
| QuoteCard.Swipe | src/components/QuoteCard.jsx:36 | a swipe stays in range; forward is the timer step; back goes to the previous quote and wraps from 0 to len-1 |
| QuoteCard.SwipeRoundTrip | src/components/QuoteCard.jsx:36 | forward then back, or back then forward, restores the index |
| QuoteCard.SwipeForwardTimes | src/components/QuoteCard.jsx:36 | n forward swipes stay in range |
| QuoteCard.SwipeForwardIsAddition | src/components/QuoteCard.jsx:36 | n forward swipes land on (index + n) mod len |
| QuoteCard.ModSuccessor | src/components/QuoteCard.jsx:26 | stepping a remainder is taking the remainder of the successor |
| QuoteCard.FullCycleReturns | src/components/QuoteCard.jsx:26-36 | len forward swipes return to the starting quote |
| QuoteCard.DragDirection | src/components/QuoteCard.jsx:56-59 | a drag right past 100 goes back, a drag left past 100 goes forward, anything in -100..100 stays |
| QuoteCard.Indicators | src/components/QuoteCard.jsx:83-95 | one dot per quote; dot i is highlighted iff i equals the index |
| QuoteCard.CountHighlighted | src/components/QuoteCard.jsx:91-95 | one dot is highlighted when the index is in range, none otherwise |
| QuoteCard.ExactlyOneIndicatorActive | src/components/QuoteCard.jsx:91-95 | with the index in range, exactly one dot is highlighted |
| QuoteCard.CurrentQuote | src/components/QuoteCard.jsx:31-38 | an empty list shows no quote (the loading text); otherwise a real element, the index-th one when the index is in range |
| QuoteCard.QuotesCarousel.constructor | src/components/QuoteCard.jsx:4-21 | the default five quotes, starting at the first |
| QuoteCard.QuotesCarousel.AutoAdvance | src/components/QuoteCard.jsx:24-29 | a timer tick performs the step and keeps the index in range |
| QuoteCard.QuotesCarousel.SwipeTo | src/components/QuoteCard.jsx:36 | the index becomes the swipe result and stays in range |
| QuoteCard.QuotesCarousel.DragEnd | src/components/QuoteCard.jsx:56-59 | past the threshold the index moves back or forward one quote; otherwise it is unchanged |
| QuoteCard.QuotesCarousel.SelectIndicator | src/components/QuoteCard.jsx:89 | a dot click sets the index to that dot |
| QuoteCard.QuotesCarousel.IndicatorKey | src/components/QuoteCard.jsx:90 | Enter on a dot selects it; any other key changes nothing |

## Left out

- Date parsing (`getMonthIndexFromDateString`) is a parameter. The library's own parsing, its format list, the numeric split fallback and `Date` overflow normalisation are not modelled. The model keeps only the empty-string guard and the fact that a month lies in 0..11.
- The `try`/`catch` branches of both pie loops are left out. With a string due date nothing inside the `try` throws: a null task reads as `""` and takes the `continue`. The `catch` is reached only when reading or converting the due value throws (a throwing getter, or an object that cannot be turned into a string), and tasks here are plain records with a string due date.
- The `due` alias field read by `t?.dueDate ?? t?.due` is left out. Tasks have one `dueDate` string.
- The `useEffect` that copies the invalid-date count into an error message and logs it is left out. It is display text and a console call.
- The `setInterval` timer is left out. Each tick is `QuotesCarousel.AutoAdvance`.
- React memoisation, re-rendering, chart and table rendering, styling, ARIA markup and the animation variants are not modelled.
- The legend entry's text is not modelled. Its number parts (name, rounded percentage, count) are modelled.
- RoundedPercent: `Math.round` of a floating-point quotient is modelled as exact rational rounding, halves rounded up. Floating-point error on exact halves is not captured.
- FullYearData: the `|| "#cccccc"` colour fallback is not modelled, because all twelve colours exist.
- IsoDate.StringLess: compares Dafny characters, which are Unicode code points, where JavaScript compares UTF-16 code units. The two orders differ only for characters above U+FFFF, which a `YYYY-MM-DD` date never holds.
- QuoteCard.DragDirection: `info.offset.x` is a floating-point pixel offset, modelled as an integer. Fractional offsets such as 100.5, which do turn the card, are not represented.
- QuoteCard.QuotesCarousel.DragEnd: takes the same integer offset as `DragDirection`.
- ExtractMonthIndex: a JavaScript number is modelled as an integer. Fractional or NaN month indices are not represented.
- MetricsCards: `new Date(dueDate)` is a `DayKey` parameter giving every due date a day number. NaN keys from invalid dates, and the sort order they cause, are not modelled.
- TasksTable.TasksTable.AddTask: `crypto.randomUUID()` is a parameter assumed not to clash with a stored id. `today` is fixed at construction, and the `alert` is the `RejectedPastDate` outcome.
- TasksTable.TasksTable.ChangeRowsPerPage: the `parseInt` of the event value is modelled as receiving one of the menu's values 5, 10, 25 or -1.
- TasksTable.TasksTable.ConfirmDelete: as in the component, the page is not clamped after a delete, so the class does not keep `page <= lastPage`. `DeleteCanLeavePagePastLast` shows the resulting state. The pager lemmas `DisabledIffStuck` and `PagerStaysInRange` promise nothing for a page past the last one.
- TasksTable.TasksTable.PressPager: `handleChangePage` is modelled only as reached through the four pager buttons, which are the only way the component changes pages.
- QuoteCard: the `%` operations divide by the list length, which is never zero because the list is always the default five quotes. The class keeps the list non-empty. The pure `CurrentQuote` covers the empty list and its loading branch.
- `src/components/Calender.jsx` is not part of this model. Neither are the header, footer, sidebar, layout, page, main content, hover wrapper and styling configuration files: they hold no stateful logic.
