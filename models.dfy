/** The planner's records: tasks, courses with their materials, timetable
    slots, and the view values built from them. */
module Models {
  import opened Base
  import opened Calendar
  import opened Labels

  /** A course material; `kind` is the `type` field ('book', 'workbook' or 'other'). */
  datatype Material = Material(id: string, name: string, kind: string)

  datatype Course = Course(id: string, name: string, color: Option<string>, materials: seq<Material>)

  /** A homework task. `dueDate` and `completedAt` are instants in milliseconds. */
  datatype Task = Task(
    id: string,
    course: string,
    description: string,
    dueDate: Option<int>,
    completed: bool,
    archived: bool,
    completedAt: Option<int>)

  /** One timetable cell: weekday name, period and course. `cls` is the extra
      `class` field that editing an occupied cell writes. */
  datatype TimeSlot = TimeSlot(day: string, time: string, course: string, cls: Option<string>)

  /** A suggested due date, given as the day whose midnight it is, and its
      label (`title`; `label` is a Dafny keyword). */
  datatype DateOption = DateOption(date: int, title: Label)

  /** Tasks shown under one date heading. */
  datatype TaskGroup = TaskGroup(date: Label, tasks: seq<Task>)

  /** The day `new Date(task.dueDate)` falls on: a missing due date is
      `new Date(null)`, the instant 0, which lies on day 0. */
  function DueDayOrEpoch(t: Task): int
  {
    if t.dueDate.Some? then DayOf(t.dueDate.value) else 0
  }

  /** `new Date(task.dueDate!).getTime()`: the due instant, 0 when missing. */
  function DueTimeOrEpoch(t: Task): int
  {
    if t.dueDate.Some? then t.dueDate.value else 0
  }
}
