# Homework planner — a verified model

The homework planner is a small Angular app for pupils. It shows:

- a **timetable** (Monday–Friday, nine periods; each cell names a course);
- a **course catalogue** (courses with materials such as books or worksheets);
- a **task overview**:
  - tasks that are overdue;
  - tasks due tomorrow;
  - later tasks grouped by the day before they are due ("work day").

  A **task form** creates or edits tasks. Its **due-date selector** suggests the next lessons of the chosen course as due dates.
- an **archive** of completed tasks, grouped by completion day.

A single service holds the shared state: the timetable slots, the tasks and the courses. It loads them from browser storage at start-up, keeping only data that passes its type guards. It saves each list whenever it changes.

This project models that logic in Dafny, one module per source file or concern, and proves what each operation promises.

- Signals and component fields that change become `class` fields. The methods that update them state the whole new state with `modifies`/`old`.
- Computed lists and label functions become functions, with lemmas about them.
- Loops become methods with invariants, proved against those functions:
  - the day-by-day scan of `getNextOccurrences`;
  - the `forEach` grouping passes of `futureTasks` and `archivedTasks`.

Model conventions:

- **Days.** A calendar day is an integer counted from 1970-01-01, which was a Thursday, so `getDay()` is `(d + 4) % 7`.
- **Instants.** An instant (`Date`) is an integer of milliseconds. Its day is `DayOf(t)`, the day whose midnight `Midnight(d) = d * 86400000` is the last one at or before `t`. Local time is taken to be UTC.
- **Clock.** "Today" and "now" are parameters.
- **Ids.** `crypto.randomUUID()` is a parameter (`id`, `newId`).
- **Storage.** Stored data arrives as a `Json` value inside `Stored` (absent, unparsable or parsed).
- **Rendered dates.** The two `Intl.DateTimeFormat` renderings are the uninterpreted labels `LongDate(day)` and `NumericDate(day)`.

Modules:

| module | source | what it holds |
|---|---|---|
| `Base` | — | `filter`, `indexOf`, `new Set` order, `slice`, toggling a nullable field |
| `Calendar` | — | weekdays, the German day names, midnight/day conversion, decimal numerals |
| `Text` | — | `trim`, `split(/\s/)`, `join(' ')` |
| `Storage` | — | stored JSON values and the guard verdict |
| `Models` | `src/app/models` | `Task`, `Course`, `Material`, `TimeSlot`, `DateOption`, `TaskGroup` |
| `Labels` | — | the week-relative date phrases, and a parser that reads them back |
| `Sorting` | — | stable insertion sort by a key; string order |
| `Grouping` | — | the "group by label, first seen first" pass used by two pages |
| `Schedule` | `schedule.service.ts` | guards, loading, saving, task-list operations, `ScheduleService` |
| `TaskOverview` | `task-overview.component.ts` | |
| `DueDateSelector` | `due-date-selector.component.ts` | |
| `TaskForm` | `task-form.component.ts` | |
| `CompletedTasks` | `completed-tasks.component.ts` | |
| `Timetable` | `timetable.component.ts` | |
| `Courses` | `courses.component.ts` | |

## Model

| member | source | states |
|---|---|---|
| Base.Filter | src/app/services/schedule.service.ts:110-112 | `Array.prototype.filter`: the result holds exactly the elements satisfying the predicate, every result element satisfies it, and the result is a sub-multiset of the input, no longer than it |
| Base.FilterAll | src/app/pages/completed-tasks/completed-tasks.component.ts:33-34 | filtering with a predicate every element satisfies keeps the sequence unchanged |
| Base.FilterAppend | src/app/services/schedule.service.ts:110-112 | filtering distributes over concatenation |
| Base.IndexOf | src/app/pages/task-overview/components/due-date-selector/due-date-selector.component.ts:108 | `indexOf`: -1 exactly when the element is absent; otherwise the element's first position |
| Base.Take | src/app/pages/task-overview/components/due-date-selector/due-date-selector.component.ts:117 | `slice(0, n)`: the longest prefix of the sequence that has at most n elements; it falls short of n only when it is the whole sequence |
| Base.Dedup | src/app/services/schedule.service.ts:99 | `new Set(...)`: the same members as the input, with no repeats |
| Base.ToggleTwice | src/app/pages/courses/courses.component.ts:97-99 | toggling twice with the same value restores a field that held null or that value, and clears any other value |
| Base.ToggleSelects | src/app/pages/timetable/timetable.component.ts:93-99 | after `toggleDayEdit(x)`, `isEditingDay(y)` holds exactly when y is x and x was not being edited before |
| Calendar.Weekday | src/app/pages/timetable/timetable.component.ts:40 | `getDay()` is in 0..6 |
| Calendar.MondayIndex | src/app/pages/task-overview/components/due-date-selector/due-date-selector.component.ts:118 | `(getDay() + 6) % 7` is in 0..6; it is 0 exactly on Mondays, 6 exactly on Sundays, and otherwise one less than `getDay()` |
| Calendar.WeekdayShift | src/app/pages/task-overview/components/due-date-selector/due-date-selector.component.ts:130-131 | moving k days ahead moves both weekday numberings by k modulo 7 |
| Calendar.DayOf | src/app/pages/task-overview/task-overview.component.ts:118-119 | `setHours(0, 0, 0, 0)`: the day of an instant is the one whose midnight is the last at or before it |
| Calendar.DayOfMonotone | src/app/pages/task-overview/task-overview.component.ts:122 | a later instant never falls on an earlier day |
| Calendar.DayNameIndex | src/app/pages/task-overview/task-overview.component.ts:244-245 | looking a name up in the seven German day names gives the index of that name, or -1 |
| Calendar.DayNameIndexOf | src/app/pages/task-overview/task-overview.component.ts:244-245 | each day name is found at its own index and contains no space |
| Calendar.SchoolDaysAreWeekdays | src/app/pages/timetable/timetable.component.ts:29 | the five timetable days are the day names of `getDay()` 1..5 |
| Calendar.NatToString | src/app/pages/task-overview/task-overview.component.ts:254 | the decimal text of a number is never empty |
| Calendar.NatToStringRoundTrip | src/app/pages/task-overview/task-overview.component.ts:254 | the decimal text of n is a numeral that reads back as n |
| Text.Leading | src/app/pages/courses/courses.component.ts:53 | the length of the leading run of whitespace: all of it whitespace, and the next character is not |
| Text.Trailing | src/app/pages/courses/courses.component.ts:53 | the length of the trailing run of whitespace: all of it whitespace, and the character before it is not |
| Text.Trim | src/app/pages/courses/courses.component.ts:53 | `trim()`: a contiguous slice of the input starting after the leading whitespace, neither starting nor ending in whitespace, with only whitespace after it |
| Text.TrimBlank | src/app/pages/courses/courses.component.ts:55 | the trimmed text is empty exactly when the input is all whitespace |
| Text.TrimIdempotent | src/app/pages/courses/courses.component.ts:53 | trimming twice is trimming once |
| Text.Split | src/app/pages/task-overview/components/task-form/task-form.component.ts:69 | `split(/\s/)` yields at least one piece |
| Text.SplitNone | src/app/pages/task-overview/components/task-form/task-form.component.ts:69 | text without a separator splits into itself alone |
| Text.SplitAt | src/app/pages/task-overview/components/task-form/task-form.component.ts:69 | splitting at a separator character splits the two sides independently |
| Text.SplitSnoc | src/app/pages/task-overview/components/task-form/task-form.component.ts:69 | splitting one more character extends the last piece or opens a new one |
| Text.Spaced | src/app/pages/task-overview/components/task-form/task-form.component.ts:69-72 | the text with every separator replaced by a space, same length, other characters kept |
| Text.JoinStep | src/app/pages/task-overview/components/task-form/task-form.component.ts:72 | joining after one more split step is joining before it plus that character, spaced |
| Text.JoinSplit | src/app/pages/task-overview/components/task-form/task-form.component.ts:69-72 | `split(/\s/).join(' ')` is the text with each whitespace character turned into a space |
| Storage.Get | src/app/services/schedule.service.ts:75-80 | a field lookup finds a value exactly when the object has that key |
| Labels.DateInRecovers | src/app/pages/task-overview/task-overview.component.ts:243-245 | the week count from a Monday and the weekday together determine the day |
| Labels.ParseRelativeWeek | src/app/pages/task-overview/task-overview.component.ts:247-253 | "Diese/Nächste/Übernächste Woche X" reads back as the day of weekday X in week 0/1/2 |
| Labels.ParseWeeksAhead | src/app/pages/task-overview/task-overview.component.ts:254 | "X in N Wochen" reads back as the day of weekday X in week N |
| Labels.ParseNear | src/app/pages/task-overview/task-overview.component.ts:247-253 | a "… Woche X" phrase whose first word names the right week count reads back as the day it was made from |
| Labels.RoundTripNear | src/app/pages/task-overview/task-overview.component.ts:247-253 | for a day within three weeks of the Monday, the phrase reads back as that day |
| Labels.RoundTripFar | src/app/pages/task-overview/task-overview.component.ts:254 | for a day three or more weeks after the Monday, the phrase reads back as that day |
| Labels.WeekLabelRoundTrip | src/app/pages/task-overview/task-overview.component.ts:243-255 | `WeekLabel`: the week-relative phrase of any day on or after the Monday reads back as that day |
| Labels.WeekLabelInjective | src/app/pages/task-overview/task-overview.component.ts:243-255 | two days on or after the Monday with the same phrase are the same day |
| Labels.WeekLabelIsLong | src/app/pages/task-overview/task-overview.component.ts:247-255 | no week-relative phrase is as short as "Morgen", "Heute" or "Gestern" |
| Sorting.Insert | src/app/pages/task-overview/task-overview.component.ts:122 | inserting a task adds exactly that task to the multiset |
| Sorting.InsertBound | src/app/pages/task-overview/task-overview.component.ts:122 | insertion keeps a lower bound on the sort keys |
| Sorting.InsertSorted | src/app/pages/task-overview/task-overview.component.ts:122 | inserting into a sorted sequence keeps it sorted |
| Sorting.Sort | src/app/pages/task-overview/task-overview.component.ts:122 | `sort` with a key comparator: the result is sorted by the key and a permutation of the input |
| Sorting.SortMembers | src/app/pages/task-overview/task-overview.component.ts:151 | sorting keeps exactly the same members |
| Sorting.InsertWithKey | src/app/pages/task-overview/task-overview.component.ts:151 | among the tasks with one key, insertion puts the new task first and keeps the others in order |
| Sorting.SortStable | src/app/pages/completed-tasks/completed-tasks.component.ts:25-28 | `sort` is stable: the tasks sharing a key keep their original order |
| Sorting.LexLeTotal | src/app/services/schedule.service.ts:100 | the default string order compares any two strings |
| Sorting.LexLeAntisymmetric | src/app/services/schedule.service.ts:100 | two strings each at most the other are equal |
| Sorting.LexLeTransitive | src/app/services/schedule.service.ts:100 | the string order is transitive |
| Sorting.InsertString | src/app/services/schedule.service.ts:100 | inserting a string adds exactly that string to the multiset |
| Sorting.InsertStringSorted | src/app/services/schedule.service.ts:100 | inserting into a sorted list of strings keeps it sorted |
| Sorting.SortStrings | src/app/services/schedule.service.ts:100 | `sort()` on strings: the result is in string order and a permutation of the input |
| Grouping.WithLabel | src/app/pages/task-overview/task-overview.component.ts:161-164 | the tasks with one label all carry it, and there are none exactly when no task has it |
| Grouping.Push | src/app/pages/task-overview/task-overview.component.ts:161-164 | `AddTask`: one `has`/`set`/`get().push` step is adding the task to its label's group, opening that group at the end if the label is new |
| Grouping.GroupByStep | src/app/pages/task-overview/task-overview.component.ts:155-165 | grouping one more task is one more push |
| Grouping.GroupByHeadings | src/app/pages/task-overview/task-overview.component.ts:167-170 | `Map.entries()` order: the group labels are the task labels, each once, in first-seen order |
| Grouping.GroupByContents | src/app/pages/task-overview/task-overview.component.ts:155-165 | `GroupBy`: each group holds exactly the tasks with its label, in task order |
| Grouping.GroupByPermutes | src/app/pages/task-overview/task-overview.component.ts:153-170 | the groups together hold every task exactly once |
| Grouping.FlattenAppend | src/app/pages/task-overview/task-overview.component.ts:167-170 | reading groups in order distributes over concatenation |
| Grouping.ContiguousPrefix | src/app/pages/task-overview/task-overview.component.ts:155-165 | a run-structured sequence stays run-structured without its last task |
| Grouping.GroupContiguous | src/app/pages/task-overview/task-overview.component.ts:153-170 | when equal labels form runs, reading the groups in order gives back the tasks in their original order |
| Schedule.IsValidTimeSlot | src/app/services/schedule.service.ts:75-80 | a `null` entry throws (`typeof null` is 'object') and nothing else does; an entry passes exactly when it is an object whose `day`, `time` and `course` are strings, which the decoder then reads as such |
| Schedule.IsValidTask | src/app/services/schedule.service.ts:82-89 | a `null` entry throws and nothing else does; an entry passes exactly when it is an object with string `id`, `course` and `description`, a `dueDate` that is null or a string, and a boolean `completed` |
| Schedule.IsValidCourse | src/app/services/schedule.service.ts:91-96 | a `null` entry throws and nothing else does; an entry passes exactly when it is an object with string `id` and `name` and an array `materials`, which the decoder then reads as such, one material per entry |
| Schedule.TaskGuardIgnoresExtras | src/app/services/schedule.service.ts:82-89 | the task guard looks only at `id`, `course`, `description`, `dueDate` and `completed`: entries agreeing on those get the same verdict, whatever `archived` or `completedAt` hold |
| Schedule.ToDate | src/app/services/schedule.service.ts:36-37 | `x ? new Date(x) : null`: only a truthy value yields a date, and a non-empty string yields what the date parser makes of it |
| Schedule.DecodeTaskDefaults | src/app/services/schedule.service.ts:34-39 | `DecodeTask`: a task stored without `archived` loads as not archived (the `false` default), a stored `true` as archived; a missing or `null` `completedAt` and a `null` `dueDate` load as no date |
| Schedule.LoadSchedule | src/app/services/schedule.service.ts:16-29 | all or nothing: a stored array whose every entry passes `isValidTimeSlot` loads as one decoded slot per entry, in order; any other stored value loads as the empty timetable |
| Schedule.LoadCourses | src/app/services/schedule.service.ts:47-60 | all or nothing: a stored array whose every entry passes `isValidCourse` loads as one decoded course per entry, in order; any other stored value loads as no courses |
| Schedule.KeepTasks | src/app/services/schedule.service.ts:34-39 | entry by entry: no more tasks than entries; all kept when all pass; none when none pass |
| Schedule.KeepTasksFiltered | src/app/services/schedule.service.ts:34-39 | the tasks kept are exactly the entries that pass `isValidTask`, decoded, in stored order |
| Schedule.LoadTasks | src/app/services/schedule.service.ts:31-45 | a `null` entry (the guard throws) or a stored value that is not an array loses every task; otherwise the tasks are exactly the entries passing `isValidTask`, decoded, in stored order |
| Schedule.SlotRoundTrip | src/app/services/schedule.service.ts:62-64 | a saved slot passes `isValidTimeSlot` and decodes to itself |
| Schedule.CourseRoundTrip | src/app/services/schedule.service.ts:70-72 | a saved course passes `isValidCourse` and decodes to itself |
| Schedule.TaskRoundTrip | src/app/services/schedule.service.ts:34-39 | a saved task passes `isValidTask` and decodes to itself, provided saved dates read back as the same instant |
| Schedule.ScheduleRoundTrip | src/app/services/schedule.service.ts:16-29 | the timetable the service saves loads back unchanged |
| Schedule.CoursesRoundTrip | src/app/services/schedule.service.ts:47-60 | the course list the service saves loads back unchanged |
| Schedule.KeepAllValid | src/app/services/schedule.service.ts:34-39 | entries that all pass the guard are all kept, each decoded in place |
| Schedule.TasksRoundTrip | src/app/services/schedule.service.ts:31-45 | the task list the service saves loads back unchanged, provided saved dates read back as the same instant |
| Schedule.DateCodecAt | src/app/services/schedule.service.ts:36-37 | a date printer that reads back prints non-empty text that reads back as the instant |
| Schedule.ArchiveTask | src/app/services/schedule.service.ts:105-107 | one task: archived afterwards exactly when archived or completed before; only `archived` and `completedAt` can change, and a changed task was not archived before and is now completed at `now` |
| Schedule.ArchiveTasks | src/app/services/schedule.service.ts:103-108 | length and order are kept; a task ends up archived exactly when it was archived or completed; nothing but `archived` and `completedAt` changes; a changed task was completed at `now`; a task that was not completed-and-unarchived is untouched |
| Schedule.ArchiveIdempotent | src/app/services/schedule.service.ts:105-107 | archiving again, at any later instant, changes nothing |
| Schedule.DeleteCompleted | src/app/services/schedule.service.ts:110-112 | exactly the tasks that are not both completed and archived remain, without duplicates added |
| Schedule.ArchiveThenDelete | src/app/services/schedule.service.ts:103-112 | archiving and then deleting leaves exactly the open tasks, in order |
| Schedule.UniqueCourses | src/app/services/schedule.service.ts:98-101 | sorted, free of duplicates, and holding exactly the course names |
| Schedule.DistinctByCount | src/app/services/schedule.service.ts:98-101 | a duplicate-free list has every count at most one |
| Schedule.CountDistinct | src/app/services/schedule.service.ts:98-101 | a list whose counts are at most one is duplicate-free |
| Schedule.ScheduleService.constructor | src/app/services/schedule.service.ts:11-60 | the three lists are the ones loaded from storage |
| Schedule.ScheduleService.ArchiveCompletedTasks | src/app/services/schedule.service.ts:103-108 | the tasks become `ArchiveTasks(tasks, now)`; timetable and courses unchanged |
| Schedule.ScheduleService.DeleteCompletedTasks | src/app/services/schedule.service.ts:110-112 | the tasks become `DeleteCompleted(tasks)`; timetable and courses unchanged |
| TaskOverview.AllTasksCompleted | src/app/pages/task-overview/task-overview.component.ts:100 | true exactly when every task is completed |
| TaskOverview.HasCompletedTasks | src/app/pages/task-overview/task-overview.component.ts:173-176 | true exactly when some task is completed and not archived |
| TaskOverview.IsToday | src/app/pages/task-overview/task-overview.component.ts:102-108 | true exactly when the instant falls between today's midnight and tomorrow's |
| TaskOverview.FormatDueDate | src/app/pages/task-overview/task-overview.component.ts:258-262 | the German name of the instant's weekday |
| TaskOverview.OverdueTasks | src/app/pages/task-overview/task-overview.component.ts:110-123 | exactly the unarchived tasks due today or earlier, ascending by due instant |
| TaskOverview.TodaysTasks | src/app/pages/task-overview/task-overview.component.ts:125-136 | exactly the unarchived tasks due tomorrow, a task without a due date counting as due on day 0 |
| TaskOverview.LaterTasks | src/app/pages/task-overview/task-overview.component.ts:138-151 | exactly the unarchived tasks due after tomorrow, ascending by due instant |
| TaskOverview.Partition | src/app/pages/task-overview/task-overview.component.ts:115-150 | an unarchived task with a due date is in exactly one of the three lists; one without is overdue or later never, and in the middle list only when today is day -1 |
| TaskOverview.OverviewMonday | src/app/pages/task-overview/task-overview.component.ts:240-241 | `today - getDay() + 1` is a Monday no more than five days back, and is tomorrow exactly on Sundays |
| TaskOverview.WeekDiffInDays | src/app/pages/task-overview/task-overview.component.ts:243 | the millisecond week difference equals the whole-week difference of the days |
| TaskOverview.FormatDate | src/app/pages/task-overview/task-overview.component.ts:228-256 | always a composed phrase, "Morgen" exactly for tomorrow's midnight; any other instant gets the week-relative phrase of its day counted from the overview's own Monday (`today - getDay() + 1`) |
| TaskOverview.FormatDateRecovers | src/app/pages/task-overview/task-overview.component.ts:236-255 | apart from tomorrow's midnight, the phrase is the one for the source's millisecond `weekDiff` from the overview's Monday, and for any day from that Monday on it reads back as the instant's day |
| TaskOverview.LabelNamesDay | src/app/pages/task-overview/task-overview.component.ts:228-256 | for instants from tomorrow on, equal labels mean the same day (and both or neither being tomorrow's midnight) |
| TaskOverview.LabelBetween | src/app/pages/task-overview/task-overview.component.ts:228-256 | an instant between two with the same label has that label too |
| TaskOverview.LaterTasksContiguous | src/app/pages/task-overview/task-overview.component.ts:143-165 | in due order, the tasks due after tomorrow have their work-day labels in runs |
| TaskOverview.WorkDayStep | src/app/pages/task-overview/task-overview.component.ts:155-165 | one iteration of the `forEach` is one push under the label of the task's work day |
| TaskOverview.GroupByWorkDay | src/app/pages/task-overview/task-overview.component.ts:153-170 | the loop builds exactly the first-seen grouping by work-day label |
| TaskOverview.FutureTasks | src/app/pages/task-overview/task-overview.component.ts:138-171 | the groups read in order give the later tasks in due order, none dropped or repeated; labels appear once each, first seen first; every group is non-empty and carries its tasks' work-day label |
| TaskOverview.WorkDayGroupsInOrder | src/app/pages/task-overview/task-overview.component.ts:153-170 | grouping tasks that are due after tomorrow and in due order keeps their order |
| TaskOverview.WorkDayGroupLabels | src/app/pages/task-overview/task-overview.component.ts:153-170 | every group is non-empty and each of its tasks has the group's label |
| TaskOverview.GroupSharesWorkDay | src/app/pages/task-overview/task-overview.component.ts:156-160 | two later tasks under one label have the same work day, the day before their due day |
| TaskOverview.Toggled | src/app/pages/task-overview/task-overview.component.ts:178-182 | same length; only the tasks with that id change, and only in `completed`, which flips |
| TaskOverview.ToggleTwice | src/app/pages/task-overview/task-overview.component.ts:178-182 | toggling a task twice restores the list |
| TaskOverview.TaskOverviewComponent.constructor | src/app/pages/task-overview/task-overview.component.ts:91-96 | no modal shown, no task being edited |
| TaskOverview.TaskOverviewComponent.ToggleTask | src/app/pages/task-overview/task-overview.component.ts:178-182 | the tasks become `Toggled(tasks, task.id)`; timetable and courses unchanged |
| TaskOverview.TaskOverviewComponent.ArchiveCompletedTasks | src/app/pages/task-overview/task-overview.component.ts:184-186 | delegates to the service: the tasks become `ArchiveTasks(tasks, now)` |
| TaskOverview.TaskOverviewComponent.ShowAddTaskModal | src/app/pages/task-overview/task-overview.component.ts:188-200 | the modal is shown; the edited task is kept |
| TaskOverview.TaskOverviewComponent.EditTask | src/app/pages/task-overview/task-overview.component.ts:202-214 | the task becomes the edited one; the modal flag is kept |
| TaskOverview.TaskOverviewComponent.CloseModal | src/app/pages/task-overview/task-overview.component.ts:216-219 | the modal is hidden and no task is being edited |
| DueDateSelector.WeekMonday | src/app/pages/task-overview/components/due-date-selector/due-date-selector.component.ts:155-156 | `today - (getDay() + 6) % 7` is the Monday of today's week, at most six days back |
| DueDateSelector.FormatDate | src/app/pages/task-overview/components/due-date-selector/due-date-selector.component.ts:139-181 | "Morgen", "Gestern" and "Heute" exactly for tomorrow, yesterday and today; the long absolute date exactly for earlier days; a composed phrase exactly from yesterday on |
| DueDateSelector.FormatFutureDate | src/app/pages/task-overview/components/due-date-selector/due-date-selector.component.ts:158-180 | after tomorrow the label is the week-relative phrase from this week's Monday, and it reads back as the day |
| DueDateSelector.FormatDateInjective | src/app/pages/task-overview/components/due-date-selector/due-date-selector.component.ts:139-181 | distinct days get distinct labels |
| DueDateSelector.SlotDays | src/app/pages/task-overview/components/due-date-selector/due-date-selector.component.ts:106-108 | each entry of `courseSlots` is -1 or a school-day index 0..4 |
| DueDateSelector.SlotDaysSpec | src/app/pages/task-overview/components/due-date-selector/due-date-selector.component.ts:106-108 | a school-day index is in `courseSlots` exactly when some slot of that course lies on that day |
| DueDateSelector.MatchingSpec | src/app/pages/task-overview/components/due-date-selector/due-date-selector.component.ts:118-120 | `Matching`: the days of a window whose Monday-based weekday is in `courseSlots` are exactly the matching days, in ascending order |
| DueDateSelector.MatchingNoSlots | src/app/pages/task-overview/components/due-date-selector/due-date-selector.component.ts:110 | with no slots, no day matches |
| DueDateSelector.MatchingPrefix | src/app/pages/task-overview/components/due-date-selector/due-date-selector.component.ts:117-133 | the matches of a shorter window are a prefix of those of a longer one |
| DueDateSelector.NextMonday | src/app/pages/task-overview/components/due-date-selector/due-date-selector.component.ts:130-132 | the first Monday after a day is one to seven days later |
| DueDateSelector.MondaysAfterCount | src/app/pages/task-overview/components/due-date-selector/due-date-selector.component.ts:130-132 | `weeksCount` after stepping from one day to another is the number of Mondays reached |
| DueDateSelector.ScanEndReached | src/app/pages/task-overview/components/due-date-selector/due-date-selector.component.ts:117 | `weeksCount < 3` holds exactly before the third Monday after the start |
| DueDateSelector.ScanOccurrences | src/app/pages/task-overview/components/due-date-selector/due-date-selector.component.ts:113-136 | the loop returns the first (at most) six matching days before the third Monday after tomorrow, each after today; the first is titled "Nächste Stunde (…)" and the rest by `formatDate` |
| DueDateSelector.NextOccurrences | src/app/pages/task-overview/components/due-date-selector/due-date-selector.component.ts:96-137 | nothing for an empty course name; otherwise the scan over the course's slot days, with the same titles |
| DueDateSelector.OccurrencesInOrder | src/app/pages/task-overview/components/due-date-selector/due-date-selector.component.ts:114-133 | at most six dates, strictly ascending, after today and before the scan's end |
| DueDateSelector.OccurrencesOnCourseDays | src/app/pages/task-overview/components/due-date-selector/due-date-selector.component.ts:118-120 | every date falls on a weekday on which the course has a timetable slot |
| DueDateSelector.OccurrencesComplete | src/app/pages/task-overview/components/due-date-selector/due-date-selector.component.ts:115-133 | no lesson day is skipped: any lesson day in the window before the last date (or any at all when fewer than six were found) is among the dates |
| DueDateSelector.DueDateSelectorComponent.constructor | src/app/pages/task-overview/components/due-date-selector/due-date-selector.component.ts:62-63 | nothing selected, no custom date |
| DueDateSelector.DueDateSelectorComponent.OnDateChange | src/app/pages/task-overview/components/due-date-selector/due-date-selector.component.ts:70-85 | 'custom' sets the custom date to today and emits now; an option clears it and emits the option's midnight; anything else clears it and emits null; the selection becomes the value |
| DueDateSelector.DueDateSelectorComponent.OnCustomDateChange | src/app/pages/task-overview/components/due-date-selector/due-date-selector.component.ts:87-94 | an empty date string changes and emits nothing; a date sets the custom date and emits its midnight |
| TaskForm.CourseMaterials | src/app/pages/task-overview/components/task-form/task-form.component.ts:30-35 | nothing for no course or an unknown name; otherwise the materials of the first course with that name |
| TaskForm.WordStart | src/app/pages/task-overview/components/task-form/task-form.component.ts:69-70 | the word before the cursor starts just after the last whitespace character, or at 0 |
| TaskForm.KeptBeforeWord | src/app/pages/task-overview/components/task-form/task-form.component.ts:69-72 | the pieces but the last, joined, plus a space when there are any, are the text up to that word with whitespace turned into spaces; the popped piece is the word |
| TaskForm.EditedTasks | src/app/pages/task-overview/components/task-form/task-form.component.ts:92-101 | editing keeps the length of the list |
| TaskForm.EditOnlyThatTask | src/app/pages/task-overview/components/task-form/task-form.component.ts:92-101 | only the tasks with that id change, taking the form's course, description and date; completion, archiving and completion time are kept |
| TaskForm.NewTask | src/app/pages/task-overview/components/task-form/task-form.component.ts:106-114 | a new task is open, unarchived, never completed, and due on the chosen date |
| TaskForm.TaskFormComponent.constructor | src/app/pages/task-overview/components/task-form/task-form.component.ts:19-28 | an empty form with no date |
| TaskForm.TaskFormComponent.OnInit | src/app/pages/task-overview/components/task-form/task-form.component.ts:37-55 | the edited task's course, description and due date fill the form; without one the form is cleared |
| TaskForm.TaskFormComponent.OnCourseChange | src/app/pages/task-overview/components/task-form/task-form.component.ts:57-59 | the chosen date is cleared; course and description are kept |
| TaskForm.TaskFormComponent.OnDateSelected | src/app/pages/task-overview/components/task-form/task-form.component.ts:83-85 | the chosen date becomes the emitted one |
| TaskForm.TaskFormComponent.InsertMaterial | src/app/pages/task-overview/components/task-form/task-form.component.ts:61-81 | the word the cursor ends becomes the material's name and a space, the text before it spaced and the text after the cursor kept verbatim; the cursor lands just after that space |
| TaskForm.TaskFormComponent.OnSubmit | src/app/pages/task-overview/components/task-form/task-form.component.ts:87-123 | an incomplete form changes nothing; editing updates only the edited task's fields; creating appends exactly one new open task and clears the form |
| CompletedTasks.FormatDate | src/app/pages/completed-tasks/completed-tasks.component.ts:67-87 | "Heute" exactly for today, "Gestern" exactly for yesterday, otherwise the numeric date of that day; never the long date |
| CompletedTasks.LabelIsDay | src/app/pages/completed-tasks/completed-tasks.component.ts:67-87 | two completion instants share a label exactly when they fall on the same day |
| CompletedTasks.ArchivedNewestFirst | src/app/pages/completed-tasks/completed-tasks.component.ts:23-28 | exactly the archived tasks, sorted newest completion first, with no task added |
| CompletedTasks.NewestFirstContiguous | src/app/pages/completed-tasks/completed-tasks.component.ts:25-36 | newest-first tasks that all have completion times have their labels in runs |
| CompletedTasks.GroupCompletedFilters | src/app/pages/completed-tasks/completed-tasks.component.ts:33-41 | skipping tasks without `completedAt` inside the loop is grouping the tasks that have one |
| CompletedTasks.GroupByCompletion | src/app/pages/completed-tasks/completed-tasks.component.ts:31-41 | the loop builds exactly the first-seen grouping of the tasks with a completion time |
| CompletedTasks.ArchivedTasks | src/app/pages/completed-tasks/completed-tasks.component.ts:22-48 | the page's groups are the sorted archived tasks grouped by completion label |
| CompletedTasks.ArchiveMembers | src/app/pages/completed-tasks/completed-tasks.component.ts:23-41 | a task is shown exactly when it is archived and has a completion time |
| CompletedTasks.ArchiveHeadingsDistinct | src/app/pages/completed-tasks/completed-tasks.component.ts:44-47 | no label heads two groups |
| CompletedTasks.ArchiveOneDay | src/app/pages/completed-tasks/completed-tasks.component.ts:31-41 | every group is non-empty and its tasks were completed on one day |
| CompletedTasks.ArchiveInOrder | src/app/pages/completed-tasks/completed-tasks.component.ts:22-48 | when every archived task has a completion time, reading the groups in order gives all of them, newest first |
| CompletedTasks.Unmarked | src/app/pages/completed-tasks/completed-tasks.component.ts:50-59 | unmarking keeps the length of the list |
| CompletedTasks.UnmarkOnlyThatTask | src/app/pages/completed-tasks/completed-tasks.component.ts:50-59 | only the tasks with that id change: open, unarchived, no completion time, other fields kept |
| CompletedTasks.UnmarkLeavesArchive | src/app/pages/completed-tasks/completed-tasks.component.ts:50-59 | after unmarking, no task with that id is in the archive |
| CompletedTasks.Deleted | src/app/pages/completed-tasks/completed-tasks.component.ts:61-65 | exactly the tasks with another id remain, with no task added |
| CompletedTasks.DeleteMissing | src/app/pages/completed-tasks/completed-tasks.component.ts:61-65 | deleting an id no task has changes nothing |
| CompletedTasks.CompletedTasksComponent.constructor | src/app/pages/completed-tasks/completed-tasks.component.ts:20 | the page uses the shared service |
| CompletedTasks.CompletedTasksComponent.UnmarkCompleted | src/app/pages/completed-tasks/completed-tasks.component.ts:50-59 | the tasks become `Unmarked(tasks, task.id)`; timetable and courses unchanged |
| CompletedTasks.CompletedTasksComponent.DeleteTask | src/app/pages/completed-tasks/completed-tasks.component.ts:61-65 | the tasks become `Deleted(tasks, taskId)`; timetable and courses unchanged |
| Timetable.CurrentDayIndex | src/app/pages/timetable/timetable.component.ts:38-51 | always 0..4; Friday (4) at the weekend; otherwise the index of today's name among the school days |
| Timetable.PreviousIndex | src/app/pages/timetable/timetable.component.ts:72-76 | one column back modulo five: a valid index i becomes (i + 4) mod 5, so Monday (0) wraps to Friday (4) |
| Timetable.NextIndex | src/app/pages/timetable/timetable.component.ts:78-82 | one column on modulo five: a valid index i becomes (i + 1) mod 5, so Friday (4) wraps to Monday (0) |
| Timetable.PagingInverse | src/app/pages/timetable/timetable.component.ts:72-82 | next moves one column on below Friday and wraps Friday to Monday; previous moves one back above Monday and wraps Monday to Friday; the two undo each other, and five steps forward return to the start |
| Timetable.HasClass | src/app/pages/timetable/timetable.component.ts:84-86 | true exactly when some slot lies in that cell |
| Timetable.GetClassInfo | src/app/pages/timetable/timetable.component.ts:88-91 | '' for an empty cell; otherwise the course of the first slot in it |
| Timetable.ClearCell | src/app/pages/timetable/timetable.component.ts:121-127 | `UpdatedSlots`: an empty value empties the cell and keeps exactly the other slots |
| Timetable.FillEmptyCell | src/app/pages/timetable/timetable.component.ts:115-119 | `UpdatedSlots`: a value for an empty cell adds exactly one slot, and the cell shows the value |
| Timetable.OverwriteCell | src/app/pages/timetable/timetable.component.ts:107-114 | `UpdatedSlots`: a value for an occupied cell keeps the length and every slot's course, sets `class` on the slots there, and leaves what the cell shows unchanged |
| Timetable.FirstAt | src/app/pages/timetable/timetable.component.ts:103-105 | `find` on an occupied cell: the first slot lying in it |
| Timetable.SameCell | src/app/pages/timetable/timetable.component.ts:84-91 | timetables that agree on which slots lie in a cell, and on their courses, show the same in it |
| Timetable.OtherCellsUnchanged | src/app/pages/timetable/timetable.component.ts:101-128 | an update never changes what another cell shows |
| Timetable.UpdateKeepsCellsUnique | src/app/pages/timetable/timetable.component.ts:103-127 | if no two slots share a cell, none do after an update |
| Timetable.OverwriteIgnored | src/app/pages/timetable/timetable.component.ts:107-114 | as written, choosing "Deutsch" for a cell that shows "Mathe" leaves it showing "Mathe" |
| Timetable.IntendedShowsValue | src/app/pages/timetable/timetable.component.ts:101-128 | with the course written into `course`, the cell shows exactly the chosen value and is occupied exactly when the value is non-empty |
| Timetable.TimetableComponent.constructor | src/app/pages/timetable/timetable.component.ts:29-36 | the day index starts at today's, no day is being edited |
| Timetable.TimetableComponent.PreviousDay | src/app/pages/timetable/timetable.component.ts:72-76 | the index moves to `PreviousIndex` and stays valid |
| Timetable.TimetableComponent.NextDay | src/app/pages/timetable/timetable.component.ts:78-82 | the index moves to `NextIndex` and stays valid |
| Timetable.TimetableComponent.ToggleDayEdit | src/app/pages/timetable/timetable.component.ts:97-99 | the edited day toggles; the index is kept |
| Timetable.TimetableComponent.UpdateSlot | src/app/pages/timetable/timetable.component.ts:101-128 | the timetable becomes `UpdatedSlots(...)`; tasks and courses unchanged |
| Courses.FindCourse | src/app/pages/courses/courses.component.ts:37 | `find` by id: none exactly when no course has the id, otherwise the first that does |
| Courses.IsUsedSpec | src/app/pages/courses/courses.component.ts:36-39 | `IsUsed`: in use exactly when some slot carries the name of the first course with that id; an id no course has is never in use |
| Courses.AddCourseEffect | src/app/pages/courses/courses.component.ts:22-33 | `CoursesAfterAdd`: a blank name changes nothing; otherwise exactly one course is appended, with the new id, no color, no materials, and as name the input without surrounding whitespace, which is non-empty and neither starts nor ends with whitespace |
| Courses.RemoveCourseEffect | src/app/pages/courses/courses.component.ts:35-49 | `CoursesAfterRemove`: a course in use by the timetable stays; otherwise exactly the courses with that id go |
| Courses.RenameInSchedule | src/app/pages/courses/courses.component.ts:62-66 | slots on the old name move to the new name; nothing else about any slot changes |
| Courses.RenameToSelf | src/app/pages/courses/courses.component.ts:61-66 | renaming a name to itself leaves the timetable unchanged |
| Courses.RenameCourseEffect | src/app/pages/courses/courses.component.ts:57-59 | only the courses with that id change, and only in their name, which becomes the trimmed input |
| Courses.FindRenamed | src/app/pages/courses/courses.component.ts:61 | looking a course up after renaming it finds it under the new name |
| Courses.RenameOrphansSlots | src/app/pages/courses/courses.component.ts:57-66 | as written, a course in use is no longer in use after a rename, so it can be removed |
| Courses.RenameKeepsUse | src/app/pages/courses/courses.component.ts:51-67 | `RenamedSchedule`, with the old name read before renaming: a course in use stays in use and no slot keeps the old name |
| Courses.AddMaterialEffect | src/app/pages/courses/courses.component.ts:78-83 | only the course with that id changes: exactly one material appended after its existing ones |
| Courses.RemoveMaterialEffect | src/app/pages/courses/courses.component.ts:88-95 | only the course with that id changes: exactly its materials with another id remain |
| Courses.CoursesComponent.constructor | src/app/pages/courses/courses.component.ts:16-20 | empty inputs, no course being edited |
| Courses.CoursesComponent.AddCourse | src/app/pages/courses/courses.component.ts:22-33 | the courses become `CoursesAfterAdd(...)`; the input is cleared unless blank; nothing else changes |
| Courses.CoursesComponent.RemoveCourse | src/app/pages/courses/courses.component.ts:35-49 | the courses become `CoursesAfterRemove(...)`; timetable and tasks unchanged |
| Courses.CoursesComponent.UpdateCourseName | src/app/pages/courses/courses.component.ts:51-67 | a blank name changes nothing; otherwise the course is renamed; the timetable is unchanged in either case |
| Courses.CoursesComponent.AddMaterial | src/app/pages/courses/courses.component.ts:69-86 | a blank or missing name changes nothing; otherwise one material (type defaulting to "other") is added to that course and its input cleared |
| Courses.CoursesComponent.RemoveMaterial | src/app/pages/courses/courses.component.ts:88-95 | the courses become `UpdateCourse(courses, id, WithoutMaterial(materialId))` |
| Courses.CoursesComponent.ToggleEdit | src/app/pages/courses/courses.component.ts:97-99 | the edited course id toggles; the inputs are kept |

## Left out

- Time zones and daylight saving: local time is UTC and every day has 86,400,000 ms.
- `Intl.DateTimeFormat` text: the long and numeric renderings are the uninterpreted labels `LongDate(d)` and `NumericDate(d)`.
- Storage I/O: `localStorage`, `JSON.parse`/`JSON.stringify` text and the `effect` auto-save. Stored data is a `Json` value. Saving is modelled only as the value written, through `SaveSchedule`, `SaveCourses` and `SaveTasks`.
- `console.warn`/`console.error` logging.
- `new Date(text)` on stored text is the `parseDate` parameter, where an invalid date is `None`.
- JSON numbers are integers.
- Schedule.DecodeCourse: material entries are read field by field without a check, as the source does. A material entry that is not an object becomes a material with empty fields.
- String order is code-point order of `char`. JavaScript's `sort()` compares UTF-16 code units.
- The clock and ids are parameters: `new Date()` becomes `today`/`now` and `crypto.randomUUID()` becomes `id`/`newId`.
- `alert` in `removeCourse` is not modelled; only its effect (no change) is.
- UI glue is not modelled. In `insertMaterial` the cursor is a parameter and a missing textarea is not modelled. Also left out:
  - `setTimeout`, focus and `submitted.emit()`;
  - the animation parameters of `showAddTaskModal`/`editTask`;
  - the swipe handlers `onTouchStart`/`onTouchEnd`.
- `onTaskSubmitted` is not a member of its own: its state change is `CloseModal`, and the random motivational and warning messages are not modelled.
- DueDateSelector.NextOccurrences: `courseSlots.sort(...)` is not modelled. Only membership in `courseSlots` matters to the scan.
- DueDateSelector.DueDateSelectorComponent.OnDateChange: the ISO text of `customDate` is modelled as a day number.
- CompletedTasks.ArchivedNewestFirst: a task without `completedAt` sorts as if completed at instant 0. In the source, such a task makes the comparator return 0, which is not a consistent order, so JavaScript's order there is implementation-defined. With every archived task having `completedAt` (`ArchiveInOrder`), the orders agree.
- TaskOverview.TodaysTasks: a task without a due date is treated as due on day 0, because the source reads `new Date(null)` as the epoch. The page therefore lists it only when tomorrow is 1970-01-01.
- `isEditing` and `isEditingDay` are equality tests against a field; they are implied by `ToggleEdit` and `ToggleDayEdit` and have no members of their own.
- The time-slot model file is not part of this model. `TimeSlot` follows the fields `isValidTimeSlot` checks, plus the optional `class` that `updateSlot` writes.

## Findings

| source | as written | input that shows it | evidently intended | confidence | as-written member | corrected member |
|---|---|---|---|---|---|---|
| src/app/pages/courses/courses.component.ts:57-66 | the course is renamed before `oldName` is looked up, so the timetable pass renames the new name to itself and the slots keep the old name | course `c1` "Mathe" used in slot Montag/1; rename to "Mathematik": the slot still says "Mathe" and `c1` is no longer in use | look `oldName` up before renaming, so the slots follow the course | not executed | Courses.RenameOrphansSlots | Courses.RenameKeepsUse |
| src/app/pages/timetable/timetable.component.ts:107-114 | choosing a course for an occupied cell writes it into a `class` field; `course`, which the cell shows, is unchanged | cell Montag/1 holding "Mathe", choose "Deutsch": the cell still shows "Mathe" | write the chosen course into `course` | not executed | Timetable.OverwriteIgnored | Timetable.IntendedShowsValue |

The component members `Courses.CoursesComponent.UpdateCourseName` and `Timetable.TimetableComponent.UpdateSlot` keep the as-written behaviour. The corrected definitions `Courses.RenamedSchedule` and `Timetable.IntendedSlots` sit beside them with their properties proved.
