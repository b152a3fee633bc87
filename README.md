# Task tracker — a Dafny model

A model of the behaviour of a small React task tracker. Tasks are records with
an id, a title, an optional description, a due date, a status
(`pending`, `in-progress`, `done`), a priority (`low`, `medium`, `high`), a
creation stamp and an optional update stamp. A mock back end keeps the whole
collection in one browser storage slot and offers get, create, update, delete,
search and clear. The pages built on it are:

- the task list, which filters by status, sorts by due date, title or priority,
  and dispatches searches;
- the create/edit form;
- the task row with its completion checkbox and overdue mark;
- the analytics panel, the reports page and the dashboard, which count tasks and
  draw percentage bars;
- the header, which picks a page title from the location.

The modules follow the program's files:

| module | file | models |
|---|---|---|
| `TaskTypes` | task_types.dfy | the record shapes and closed unions, with the string literals that name them |
| `MockApi` | mock_api.dfy | the storage slot, the record computations of each operation, and the store as a class whose methods read, recompute and write back the slot |
| `TaskItem` | task_item.dfy | the overdue test, the checkbox and the badge texts |
| `TasksPage` | tasks_page.dfy | the status filter, the three comparators, `filterAndSortTasks` (an in-place sort of a copied array), `loadTasks`, the add, update and delete handlers, and `handleSearch` |
| `TaskFormModal` | task_form.dfy | the default and prefilled form, `handleChange`, the priority buttons, the browser's `required`/`min` check and the submission |
| `TaskStats` | task_stats.dfy | the counts, completion rate, priority bars (`x / total * 100` with its `NaN` guard, over JavaScript numbers) and overdue count |
| `Reports` | reports.dfy | the status bars of the reports page |
| `Dashboard` | dashboard.dfy | the five newest tasks (an in-place sort, then a slice) and the counts over them |
| `Header` | header.dfy | `pathname.split('/')[1]` and the title switch |

Four support modules hold what the pages share:

- `Wrappers`: `Option` and `Result`.
- `Text`: JavaScript `trim`, `toLowerCase`, `includes`, `split` and a string
  order on Unicode scalar values.
- `Seqs`: `filter` and its laws.
- `Sorting`: `Array.prototype.sort`.

`Array.prototype.sort` is modelled as a stable insertion sort. A uniqueness
lemma shows that every sorted, stable rearrangement of the input equals it. The
model therefore shows the one order that every engine following the
ECMAScript requirement of a stable sort must produce.

The environment is passed in as parameters:

- the store's clock stamp is an argument of both `CreateTask` and `UpdateTask`,
  and the generated id is an argument of `CreateTask`;
- date parsing (`new Date(s).getTime()`) is a function `timeOf: string -> int`;
- the current moment is `now: int`;
- today's `yyyy-MM-dd` date is `today`;
- the location's path is `pathname`.

## Model

| member | source | states |
|---|---|---|
| `TaskTypes.StatusText` | src/types/task.ts:1 | the union literal of each status; see `StatusTextRoundTrip` and `ParseStatus` |
| `TaskTypes.PriorityText` | src/types/task.ts:2 | the union literal of each priority; the badges built from it are told apart by `TaskItem.PriorityLabelInjective` |
| `TaskTypes.ParseStatus` | src/types/task.ts:1 | exactly `pending`, `in-progress` and `done` name a status |
| `TaskTypes.StatusTextRoundTrip` | src/types/task.ts:1 | reading a status's literal gives the status back, and no other string gives that status |
| `MockApi.TaskStore.Tasks` | src/services/mockAPI.ts:9-12 | the store's tasks are what its slot reads as; a slot that holds no collection gives no tasks |
| `MockApi.ReadSlot` | src/services/mockAPI.ts:9-12 | a missing or empty slot reads as no tasks, a stored collection as itself |
| `MockApi.NewTask` | src/services/mockAPI.ts:27-31 | a new task carries every form field, the generated id and `createdAt = now`, and has no `updatedAt` |
| `MockApi.MergeTask` | src/services/mockAPI.ts:42 | each field the patch names takes the patch's value, the others keep theirs; `id` and `createdAt` are kept and `updatedAt` becomes the stamp |
| `MockApi.MergeEmptyPatch` | src/services/mockAPI.ts:42 | merging a patch that names no field changes only `updatedAt` |
| `MockApi.MergeTwice` | src/services/mockAPI.ts:42 | merging the same patch twice equals merging it once with the later stamp |
| `MockApi.UpdateAll` | src/services/mockAPI.ts:40-44 | same length; every record with the id is merged and every other record is unchanged |
| `MockApi.UpdateOutcome` | src/services/mockAPI.ts:46-48 | the update's result is a task with the requested id, or the error "Task not found" |
| `MockApi.FindById` | src/services/mockAPI.ts:46 | a found task has the id searched for |
| `MockApi.FindByIdFirst` | src/services/mockAPI.ts:46-47 | `find` fails exactly when no record has the id, and otherwise returns the record at the first matching index |
| `MockApi.UpdatePresent` | src/services/mockAPI.ts:37-48 | updating a present id returns the merge of the first record with the id |
| `MockApi.FirstWithId` | src/services/mockAPI.ts:46 | a present id has a first index holding it, with no earlier record holding it |
| `MockApi.UpdateFirst` | src/services/mockAPI.ts:40-46 | after the update, `find` returns the merge of the record at the first index with the id |
| `MockApi.UpdateAbsent` | src/services/mockAPI.ts:46-47 | updating an absent id writes back the collection unchanged and fails with "Task not found" |
| `MockApi.UpdateUnique` | src/services/mockAPI.ts:40-48 | with distinct ids, the update returns the merge of the one record with the id |
| `MockApi.WithoutId` | src/services/mockAPI.ts:54 | the records kept by the delete, never more than there were; see `DeleteRemovesExactly` for which |
| `MockApi.DeleteRemovesExactly` | src/services/mockAPI.ts:54 | after deletion no record has the id, every record with another id remains, and the order is kept |
| `MockApi.DeleteKeepsCopies` | src/services/mockAPI.ts:54 | every record with another id keeps exactly as many copies as it had; records with the id have none |
| `MockApi.DeleteAbsent` | src/services/mockAPI.ts:51-56 | deleting an absent id leaves the collection as it was |
| `MockApi.DeleteIdempotent` | src/services/mockAPI.ts:53-55 | deleting twice equals deleting once |
| `MockApi.Matches` | src/services/mockAPI.ts:64-66 | a task matches when its lowercased title, or its lowercased description when that is present and not empty, includes the lowercased query; see `SearchExactly` |
| `MockApi.Search` | src/services/mockAPI.ts:60-67 | the search result, never longer than the collection; see `SearchBlank` and `SearchExactly` for its contents |
| `MockApi.SearchBlank` | src/services/mockAPI.ts:61 | an empty or whitespace-only query returns the whole collection |
| `MockApi.SearchExactly` | src/services/mockAPI.ts:63-67 | any other query returns, in order, exactly the tasks whose lowercased title or description contains the lowercased query |
| `MockApi.SearchKeepsCopies` | src/services/mockAPI.ts:63-67 | for a non-blank query each matching record keeps exactly as many copies as it had, and no other record appears |
| `MockApi.CreateKeepsIdsUnique` | src/services/mockAPI.ts:27-33 | appending a task with an unused id keeps ids distinct |
| `MockApi.UpdateDeleteKeepIdsUnique` | src/services/mockAPI.ts:37-56 | updating and deleting keep ids distinct |
| `MockApi.SubsequenceUniqueIds` | src/services/mockAPI.ts:54 | keeping an order-preserving selection of the records keeps ids distinct |
| `MockApi.TaskStore.constructor` | src/services/mockAPI.ts:3 | the store starts over whatever the storage key holds |
| `MockApi.TaskStore.GetTasks` | src/services/mockAPI.ts:19-22 | returns the stored collection, with no tasks for a missing or empty slot, and changes nothing |
| `MockApi.TaskStore.CreateTask` | src/services/mockAPI.ts:24-35 | returns the new task and stores the old collection with it appended |
| `MockApi.TaskStore.UpdateTask` | src/services/mockAPI.ts:37-49 | always writes back the updated collection; fails with "Task not found" exactly when the id was absent, the collection then being unchanged |
| `MockApi.TaskStore.DeleteTask` | src/services/mockAPI.ts:51-56 | stores the collection without the records with the id |
| `MockApi.TaskStore.SearchTasks` | src/services/mockAPI.ts:58-68 | returns the search result over the stored collection, all of it for a blank query, and changes nothing |
| `MockApi.TaskStore.ClearAllTasks` | src/services/mockAPI.ts:70-73 | stores the empty collection |
| `Text.IsJsWhitespace` | src/services/mockAPI.ts:61 | the characters `trim` strips, ECMAScript's WhiteSpace and LineTerminator; see `TrimStart` and `TrimEnd` |
| `Text.IsBlank` | src/pages/Tasks.tsx:96 | a string all of whose characters are whitespace, which is when `!query.trim()` holds; see `TrimEmptyIffBlank` |
| `Text.Trim` | src/services/mockAPI.ts:61 | `trim`, never longer than its input; see `TrimEmptyIffBlank` |
| `Text.TrimStart` | src/services/mockAPI.ts:61 | the result is a suffix of the input, does not start with whitespace, and only whitespace was removed |
| `Text.TrimEnd` | src/pages/Tasks.tsx:96 | the result is a prefix of the input, does not end with whitespace, and only whitespace was removed |
| `Text.TrimEmptyIffBlank` | src/pages/Tasks.tsx:96-99 | a string trims to nothing exactly when it is all whitespace |
| `Text.LowerChar` | src/services/mockAPI.ts:63 | an upper-case ASCII letter becomes its lower-case letter; every other character is kept |
| `Text.Lower` | src/services/mockAPI.ts:63-66 | lowercasing maps each character separately and keeps the length |
| `Text.Includes` | src/services/mockAPI.ts:65-66 | `includes`; its meaning is stated by `IncludesIff` |
| `Text.IncludesIff` | src/services/mockAPI.ts:65-66 | `includes` holds exactly when the substring occurs at some position |
| `Text.SplitOn` | src/components/tasks/TaskFormModal.tsx:25 | `split` gives at least one piece and no piece contains the separator |
| `Text.JoinSplit` | src/components/common/Header.tsx:13 | joining the pieces with the separator gives the input back |
| `Text.SplitWithoutSeparator` | src/components/tasks/TaskFormModal.tsx:25 | a string without the separator splits into itself alone |
| `Text.SplitAtSeparator` | src/components/common/Header.tsx:13 | splitting `a + sep + b` gives the pieces of `a` followed by those of `b` |
| `Text.SplitAtLeastTwo` | src/components/common/Header.tsx:13 | a string containing the separator splits into at least two pieces |
| `Text.FirstPieceIsPrefix` | src/components/tasks/TaskFormModal.tsx:25 | the first piece is a prefix of the input |
| `Text.StrCompare` | src/pages/Tasks.tsx:56 | the title order gives -1, 0 or 1 |
| `Text.StrCompareZeroIff` | src/pages/Tasks.tsx:56 | two titles compare equal exactly when they are the same string |
| `Text.StrCompareAntisymmetric` | src/pages/Tasks.tsx:56 | swapping the titles negates the result |
| `Text.StrCompareTransitive` | src/pages/Tasks.tsx:56 | the title order is transitive |
| `Seqs.Filter` | src/pages/Tasks.tsx:49 | `filter` never lengthens a list |
| `Seqs.FilterMembers` | src/pages/Tasks.tsx:49 | `filter` keeps exactly the elements that pass the test, with no more copies than the input has |
| `Seqs.FilterCount` | src/pages/Tasks.tsx:49 | `filter` keeps every passing element with all its copies and drops every failing one |
| `Seqs.FilterIsSubsequence` | src/services/mockAPI.ts:64-67 | `filter` keeps the input's order |
| `Seqs.FilterIdempotent` | src/services/mockAPI.ts:54 | filtering twice with one test equals filtering once |
| `Seqs.FilterSplitsLength` | src/components/tasks/TaskStats.tsx:11 | the elements that pass a test and those that fail it add up to the whole |
| `Seqs.FilterMonotone` | src/components/tasks/TaskStats.tsx:123-125 | a stricter test keeps no more elements |
| `Seqs.FilterKeepsAllIff` | src/components/tasks/TaskStats.tsx:11 | all elements are kept exactly when all pass the test |
| `Seqs.FilterKeepsNoneIff` | src/components/tasks/TaskStats.tsx:124 | no element is kept exactly when none passes the test |
| `Seqs.FilterPermutationLength` | src/pages/Dashboard.tsx:33-36 | reordering the input does not change how many elements pass a test |
| `Sorting.ValidComparator` | src/pages/Tasks.tsx:52-61 | the consistency `sort` asks of a comparator: reflexive to 0, antisymmetric in sign, transitive; proved of each comparator by `TasksPage.TaskCompareValid` and `Dashboard.NewestFirstValid` |
| `Sorting.Sorted` | src/pages/Tasks.tsx:52-61 | no later element compares below an earlier one; proved of the sort by `InsertionSortSorted` |
| `Sorting.Stable` | src/pages/Tasks.tsx:52-61 | elements that compare equal appear in input order; proved of the sort by `InsertionSortStable` |
| `Sorting.Insert` | src/pages/Tasks.tsx:52 | inserting adds exactly one element |
| `Sorting.InsertionSort` | src/pages/Tasks.tsx:52-61 | sorting keeps the length |
| `Sorting.InsertionSortPermutes` | src/pages/Tasks.tsx:52-61 | the sorted list is a rearrangement of the input |
| `Sorting.InsertionSortSorted` | src/pages/Tasks.tsx:52-61 | under a consistent comparator the sorted list is in order |
| `Sorting.InsertionSortStable` | src/pages/Tasks.tsx:52-61 | elements that compare equal keep their input order |
| `Sorting.SortedStableIsInsertionSort` | src/pages/Dashboard.tsx:22 | every sorted, stable rearrangement of the input equals the model's sort |
| `Sorting.InsertInPlace` | src/pages/Dashboard.tsx:22 | shifting one element left into a sorted prefix of an array inserts it into that prefix, and the rest of the array is untouched |
| `Sorting.SortInPlace` | src/pages/Dashboard.tsx:21-22 | the array sorted in place holds the stable sort of its old contents |
| `TaskItem.IsOverdue` | src/components/tasks/TaskItem.tsx:36 | the overdue mark; its meaning is stated by `OverdueIff` |
| `TaskItem.OverdueIff` | src/components/tasks/TaskItem.tsx:36 | a done task is never overdue; any other task is overdue exactly when its due date has passed |
| `TaskItem.Checked` | src/components/tasks/TaskItem.tsx:47 | the box is checked exactly for a done task |
| `TaskItem.CheckboxRequest` | src/components/tasks/TaskItem.tsx:48 | checking requests `done`, unchecking requests `pending`; `in-progress` is never requested |
| `TaskItem.StatusPatch` | src/pages/Tasks.tsx:176 | a status change sends a patch naming the status and no other field |
| `TaskItem.ClickToggles` | src/components/tasks/TaskItem.tsx:47-48 | a click always changes the status, flips the box, and changes no field but the status and `updatedAt` |
| `TaskItem.CheckboxAndOverdue` | src/components/tasks/TaskItem.tsx:36-48 | checking clears the overdue mark; unchecking makes the task overdue exactly when its due date has passed |
| `TaskItem.StatusLabel` | src/components/tasks/TaskItem.tsx:63 | `In Progress` for in-progress, the literal for the other statuses |
| `TaskItem.StatusLabelInjective` | src/components/tasks/TaskItem.tsx:62-64 | different statuses get different badges |
| `TaskItem.PriorityLabel` | src/components/tasks/TaskItem.tsx:66 | the priority badge, the literal followed by ` priority`; see `PriorityLabelInjective` |
| `TaskItem.PriorityLabelInjective` | src/components/tasks/TaskItem.tsx:65-67 | different priorities get different badges |
| `TasksPage.Rank` | src/pages/Tasks.tsx:58-59 | priority ranks 1 to 3, high alone at 3 and low alone at 1 |
| `TasksPage.TaskCompare` | src/pages/Tasks.tsx:52-61 | the comparator of each sort option: due-date times ascending, titles in string order, or priority ranks descending; see `TaskCompareValid` and `ShownSortedByKey` |
| `TasksPage.TaskCompareValid` | src/pages/Tasks.tsx:52-61 | each of the three comparators is reflexive, antisymmetric in sign and transitive |
| `TasksPage.ApplyFilter` | src/pages/Tasks.tsx:46-50 | the status filter never lengthens the list; see `ApplyFilterExactly` for its contents |
| `TasksPage.ApplyFilterExactly` | src/pages/Tasks.tsx:46-50 | `all` keeps the list; otherwise exactly the tasks with the status are kept, in order |
| `TasksPage.ReflexiveSubsequence` | src/pages/Tasks.tsx:46 | the unfiltered copy keeps the order of the list |
| `TasksPage.Shown` | src/pages/Tasks.tsx:45-63 | the list the page shows has as many tasks as pass the filter; see the `Shown…` lemmas for its order |
| `TasksPage.FilterAndSortTasks` | src/pages/Tasks.tsx:45-64 | the shown list is the stable sort of the filtered tasks |
| `TasksPage.ShownPermutesStably` | src/pages/Tasks.tsx:52-63 | the shown list rearranges the filtered tasks and keeps equal-keyed tasks in list order |
| `TasksPage.ShownSortedByKey` | src/pages/Tasks.tsx:53-60 | due dates never decrease, or titles never decrease, or priority ranks never increase along the list |
| `TasksPage.ShownIsTheStableSort` | src/pages/Tasks.tsx:45-63 | every sorted, stable rearrangement of the filtered tasks is the shown list |
| `TasksPage.LoadTasks` | src/pages/Tasks.tsx:29-43 | loading sets the page's tasks to the stored collection, and the effect on `tasks` recomputes the shown list from them |
| `TasksPage.HandleAddTask` | src/pages/Tasks.tsx:66-74 | the store gains the new task, the page reloads the stored collection and its shown list, and the form closes |
| `TasksPage.HandleUpdateTask` | src/pages/Tasks.tsx:76-84 | the store holds the updated collection; on success the page reloads and stops editing, and on "Task not found" the page's lists and the edited task are left as they were |
| `TasksPage.HandleDeleteTask` | src/pages/Tasks.tsx:86-93 | the store loses the records with the id and the page reloads the stored collection and its shown list |
| `TasksPage.HandleSearch` | src/pages/Tasks.tsx:95-102 | a blank query shows the filtered, sorted list; any other shows the store's raw search results |
| `TaskFormModal.DefaultForm` | src/components/tasks/TaskFormModal.tsx:12-18 | a new form is empty, pending, medium priority and due today |
| `TaskFormModal.DatePart` | src/components/tasks/TaskFormModal.tsx:25 | the date part is a prefix of the due date with no `T` |
| `TaskFormModal.DatePartWithoutT` | src/components/tasks/TaskFormModal.tsx:25 | a due date without a time part is kept whole |
| `TaskFormModal.DatePartBeforeT` | src/components/tasks/TaskFormModal.tsx:25 | the date part of `date + "T" + time` is `date` |
| `TaskFormModal.FormFromTask` | src/components/tasks/TaskFormModal.tsx:20-30 | editing prefills title, status and priority, an empty string for a missing description, and the date part of the due date |
| `TaskFormModal.Reportable` | src/components/tasks/TaskFormModal.tsx:37-40 | a change event reports the status only as one of its literals; any text may be reported for the text and date inputs |
| `TaskFormModal.HandleChange` | src/components/tasks/TaskFormModal.tsx:37-40 | a field change never touches the priority |
| `TaskFormModal.HandleChangeOnlyNamed` | src/components/tasks/TaskFormModal.tsx:37-40 | the named field takes the reported value and every other field is unchanged |
| `TaskFormModal.HandleChangeLaws` | src/components/tasks/TaskFormModal.tsx:39 | reporting the current value changes nothing, and of two changes to one field the later one wins |
| `TaskFormModal.PickPriority` | src/components/tasks/TaskFormModal.tsx:132 | a priority button sets the priority and changes no other field |
| `TaskFormModal.OneButtonHighlighted` | src/components/tasks/TaskFormModal.tsx:128-139 | exactly one of the three buttons is highlighted |
| `TaskFormModal.FormAsPatch` | src/pages/Tasks.tsx:192 | a submitted edit sends a patch naming every form field |
| `TaskFormModal.Submittable` | src/components/tasks/TaskFormModal.tsx:95-103 | the browser lets the form submit only with a title, a due date, and the due date not before today; see `Submit` |
| `TaskFormModal.Submit` | src/components/tasks/TaskFormModal.tsx:32-35 | the submit is blocked exactly when the title or due date is empty or the due date is before today; otherwise it creates a task from the form, or updates the edited task with every form field |
| `TaskFormModal.CreateFromDefault` | src/pages/Tasks.tsx:181-185 | an untouched new form is blocked; with a title it creates a pending, medium task due today |
| `TaskFormModal.PastDueEditBlocked` | src/components/tasks/TaskFormModal.tsx:95-103 | an edit of a task due before today, or of one with no title, cannot be submitted unchanged |
| `TaskFormModal.SaveUntouchedEdit` | src/pages/Tasks.tsx:188-193 | an untouched edit keeps id, title, status, priority and `createdAt`, but stores the date part and a missing description as empty |
| `TaskFormModal.SaveUntouchedEditPlain` | src/components/tasks/TaskFormModal.tsx:20-30 | for a task that has a description and a date-only due date, an untouched edit changes only `updatedAt` |
| `TaskFormModal.PrefillCreated` | src/components/tasks/TaskFormModal.tsx:20-30 | a created task with a date-only due date opens in the edit form with the data it was created from |
| `TaskStats.CountStatus` | src/components/tasks/TaskStats.tsx:11-13 | a status count is at most the total |
| `TaskStats.CountPriority` | src/components/tasks/TaskStats.tsx:14-16 | a priority count is at most the total |
| `TaskStats.StatsOf` | src/components/tasks/TaskStats.tsx:9-17 | the seven counts of the analytics panel; see `CountsSumToTotal`, `CountExtremes` and `StatsPermutationInvariant` |
| `TaskStats.CountsSumToTotal` | src/components/tasks/TaskStats.tsx:9-17 | the status counts, and separately the priority counts, add up to the total |
| `TaskStats.CountExtremes` | src/components/tasks/TaskStats.tsx:11-13 | a count equals the total exactly when every task is in the bucket, and is 0 exactly when none is |
| `TaskStats.StatsPermutationInvariant` | src/pages/Reports.tsx:45-53 | reordering the tasks changes no count |
| `TaskStats.CompletionRate` | src/components/tasks/TaskStats.tsx:19 | the share of done tasks as a percentage, 0 for no tasks; see `CompletionRateBounds` |
| `TaskStats.CompletionRateBounds` | src/components/tasks/TaskStats.tsx:19 | the rate is in [0, 100]; it is 0 exactly when nothing is done, and 100 exactly when there are tasks and all are done |
| `TaskStats.RatioBounds` | src/pages/Reports.tsx:55 | a share of a positive whole is a percentage in [0, 100], 0 and 100 only at the ends |
| `TaskStats.JsDivide` | src/components/tasks/TaskStats.tsx:57 | dividing by a positive total is finite; 0/0 is `NaN` and n/0 is `Infinity` |
| `TaskStats.JsTimes` | src/components/tasks/TaskStats.tsx:57 | `* 100` keeps a finite number finite and leaves `NaN` and `Infinity` as they are; see `BarWidthBounds` |
| `TaskStats.OrZero` | src/components/tasks/TaskStats.tsx:75 | the `or 0` guard turns `NaN` into 0 and keeps every other number |
| `TaskStats.BarWidth` | src/components/tasks/TaskStats.tsx:57 | one bar's width, `count / total * 100 or 0` over JavaScript numbers; see `BarWidthBounds` |
| `TaskStats.BarWidthBounds` | src/components/tasks/TaskStats.tsx:93 | a bar is a finite width in [0, 100]: `count / total * 100`, or 0 when there are no tasks |
| `TaskStats.UnguardedBarIsNaN` | src/pages/Reports.tsx:138 | without the `or 0` guard an empty list would give a `NaN` width; with it the width is 0 |
| `TaskStats.PriorityBarsOf` | src/components/tasks/TaskStats.tsx:55-93 | the widths of the high, medium and low bars; see `PriorityBarsSum` |
| `TaskStats.PriorityBarsSum` | src/components/tasks/TaskStats.tsx:55-93 | the three priority bars are finite widths in [0, 100], all 0 for no tasks and adding up to 100 otherwise |
| `TaskStats.SharesSum` | src/pages/Reports.tsx:138-164 | three shares of a positive whole that add up to it add up to 100 percent |
| `TaskStats.OverdueCount` | src/components/tasks/TaskStats.tsx:123-125 | the number of overdue tasks, never more than the tasks; see `OverdueCountBounds` and `OverdueCountMeaning` |
| `TaskStats.OverdueCountBounds` | src/components/tasks/TaskStats.tsx:123-125 | the overdue count is at most the number of tasks that are not done, and is 0 when all are done |
| `TaskStats.OverdueCountMeaning` | src/components/tasks/TaskStats.tsx:124 | overdue tasks are exactly those not done and past due, whatever the list order |
| `TaskStats.OverduePanel` | src/components/tasks/TaskStats.tsx:118-130 | the overdue panel is shown exactly for a non-empty list, with the overdue count |
| `Reports.StatusBarsOf` | src/pages/Reports.tsx:138-164 | the widths of the completed, in-progress and pending bars; see `ReportBarsSum` and `CompletedBarIsRate` |
| `Reports.ReportBarsSum` | src/pages/Reports.tsx:138-208 | all six bars are finite widths in [0, 100], all 0 for no tasks; the status bars, and separately the priority bars, add up to 100 |
| `Reports.CompletedBarIsRate` | src/pages/Reports.tsx:182 | the completed bar has the width of the completion rate |
| `Dashboard.NewestFirst` | src/pages/Dashboard.tsx:22 | the comparator putting later creation times first; see `NewestFirstValid` |
| `Dashboard.NewestFirstValid` | src/pages/Dashboard.tsx:22 | the newest-first comparator is consistent |
| `Dashboard.Take` | src/pages/Dashboard.tsx:23 | `slice(0, n)` is the prefix of length min(n, length) |
| `Dashboard.Recent` | src/pages/Dashboard.tsx:21-23 | the recent list, at most five tasks and never more than are stored; see `RecentShape` and `RecentKeepsNewest` |
| `Dashboard.LoadRecentTasks` | src/pages/Dashboard.tsx:17-30 | the recent list is the newest-first stable sort of the stored tasks, cut to five |
| `Dashboard.RecentShape` | src/pages/Dashboard.tsx:20-23 | there are min(5, n) recent tasks, all taken from the store, with creation times never increasing |
| `Dashboard.RecentKeepsNewest` | src/pages/Dashboard.tsx:21-23 | no task left out was created later than any task kept |
| `Dashboard.SortedSplit` | src/pages/Dashboard.tsx:21 | in a newest-first list, nothing after a position was created later than anything before it |
| `Dashboard.LeftOut` | src/pages/Dashboard.tsx:23 | what the slice leaves out is the rest of the sorted list |
| `Dashboard.DashboardCounts` | src/pages/Dashboard.tsx:32-37 | the dashboard counts at most five tasks, and its status counts add up to its total |
| `Header.FirstSegment` | src/components/common/Header.tsx:13 | the segment has no `/`; it is absent exactly when the path has no `/` |
| `Header.TopLevelSegment` | src/components/common/Header.tsx:13 | the segment of `/seg` is `seg` |
| `Header.SegmentTitle` | src/components/common/Header.tsx:14-21 | the title switch always answers one of the five page titles; see `TopLevelTitles` |
| `Header.PageTitle` | src/components/common/Header.tsx:12-22 | the header title is always one of the five page titles; see `TitleOfDeeperPath` and `FallbackTitle` |
| `Header.TitleOfDeeperPath` | src/components/common/Header.tsx:12-22 | a deeper path gets the title of its first segment |
| `Header.TopLevelTitles` | src/components/common/Header.tsx:14-21 | the five known segments get their titles; every other segment, the empty one included, gets `Dashboard` |
| `Header.FallbackTitle` | src/components/common/Header.tsx:20 | `/` and a path without `/` get `Dashboard` |

## Left out

- The 200/300 ms `delay` and the asynchrony of every request are not modelled. The
  operations are atomic, so interleaved requests and lost writes are not captured.
- `JSON.stringify`/`JSON.parse` are taken to round-trip, so the slot holds the
  collection itself. A slot holding text that is not JSON, where `getTasks` would
  throw, is not modelled.
- `generateId` (`Date.now()` plus `Math.random()`) and the ISO clock stamp are
  parameters.
- `UniqueIds`: ids are not proved fresh, because that rests on randomness. The
  lemmas assume an unused id at creation.
- `new Date(s).getTime()` is the parameter `timeOf`, which is total and integer-valued.
  Invalid dates, whose `NaN` makes the date comparator inconsistent, are not modelled.
- `Text.StrCompare`: `localeCompare` is modelled as lexicographic order on Unicode
  scalar values, without the locale's collation. Characters outside the Basic
  Multilingual Plane therefore order differently from JavaScript's UTF-16 code
  units.
- `Text.Lower`, `Text.LowerChar`: `toLowerCase` is modelled for ASCII letters only;
  other capitals, such as `É`, are kept unchanged.
- `Text.TrimStart`: the whitespace set is Unicode's space characters and line
  terminators as JavaScript lists them. There is no other Unicode handling.
- Floating-point numbers are modelled as reals: rates and widths are exact.
  `toFixed(1)` and the CSS `%` string are not modelled.
- `TaskFormModal.Submittable`: the `min` check compares the `yyyy-MM-dd` strings
  character by character. For such dates this is the calendar order, as it is in
  the browser.
- `TaskFormModal.Reportable`: any text may be reported for the date input. The
  browser's restriction of it to valid `yyyy-MM-dd` dates is not modelled.
- A `Partial<TaskFormData>` holding an explicit `undefined` cannot be expressed.
  Such a value would overwrite a field with `undefined`. A patch field is either
  present with a value or absent.
- `TasksPage.HandleSearch`: the callback is memoised on `tasks` only. A blank search
  can therefore reapply a stale filter or sort option. The model uses the current
  ones.
- React state and re-rendering are not modelled as such. On the task list page,
  `loadTasks` and the add, update and delete handlers are methods that return the
  page's new `tasks`, its shown list and the form state: a reload after each
  successful change, and closing the form. Their `await`s run to completion
  before the next step, and the reload's own failure path is not modelled. The
  other pages' effects are the functions they compute.
- The CSS colour classes of the badges, the captions of the priority buttons and
  the form's heading and submit caption are presentational and not modelled.
- Loading spinners, the `console.error` paths and the `?action=create` query
  parameter are not modelled. The errors of a rejected request are not modelled
  either; they are only logged.
- The header's date line (`format(new Date(), …)`) and its static search box,
  user menu and menu button are not modelled. Date formatting by `date-fns` in the
  rows is not modelled either.
- The `SearchResult` interface is not modelled; no code uses it.
- The calendar page, the sidebar, the layout and the presentational components
  (`Card`, `Modal`, `StatsCard`, `SearchBar`, `FilterControls`, `TaskList`) are
  not part of this model. Neither are `src/utils/helpers.ts` and
  `src/types/task.type.ts`.
