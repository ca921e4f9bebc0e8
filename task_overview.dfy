/** The task overview: open tasks split into overdue ones, the ones due
    tomorrow (the homework to do today), and later ones grouped by the day on
    which they should be worked on (the day before they are due). */
module TaskOverview {
  import opened Base
  import opened Calendar
  import opened Labels
  import opened Models
  import opened Sorting
  import opened Grouping
  import opened Schedule

  // ---------------------------------------------------------------------------
  // Small predicates

  /** `allTasksCompleted`: `tasks.every(task => task.completed)`. */
  function AllTasksCompleted(ts: seq<Task>): (r: bool)
    ensures r <==> forall i :: 0 <= i < |ts| ==> ts[i].completed
  {
    if ts == [] then true else ts[0].completed && AllTasksCompleted(ts[1..])
  }

  /** `hasCompletedTasks`: some task is completed but not yet archived. */
  function HasCompletedTasks(ts: seq<Task>): (r: bool)
    ensures r <==> exists i :: 0 <= i < |ts| && ts[i].completed && !ts[i].archived
  {
    if ts == [] then false
    else
      assert forall i :: 1 <= i < |ts| ==> ts[i] == ts[1..][i - 1];
      (ts[0].completed && !ts[0].archived) || HasCompletedTasks(ts[1..])
  }

  /** `isToday(date)` for the instant `t`: both set to midnight are equal. */
  function IsToday(t: int, today: int): (r: bool)
    ensures r <==> Midnight(today) <= t < Midnight(today + 1)
  {
    DayOf(t) == today
  }

  /** `formatDueDate`: the weekday name of the due instant. */
  function FormatDueDate(t: int): (r: string)
    ensures r in DayNames && DayNameIndex(r) == Weekday(DayOf(t))
  {
    DayNameIndexOf(Weekday(DayOf(t)));
    DayName(DayOf(t))
  }

  // ---------------------------------------------------------------------------
  // The three lists

  predicate NotArchived(t: Task)
  {
    !t.archived
  }

  /** A due date set, on or before `today` (compared as midnights). */
  function DueByDay(today: int): Task -> bool
  {
    (t: Task) => t.dueDate.Some? && DayOf(t.dueDate.value) <= today
  }

  /** Due on `tomorrow`; the due date is not checked for presence, and a
      missing one reads as the epoch (`new Date(null)`). */
  function DueOnDay(tomorrow: int): Task -> bool
  {
    (t: Task) => DueDayOrEpoch(t) == tomorrow
  }

  /** A due date set, after `tomorrow`. */
  function DueAfterDay(tomorrow: int): Task -> bool
  {
    (t: Task) => t.dueDate.Some? && DayOf(t.dueDate.value) > tomorrow
  }

  /** `overdueTasks`: the open tasks due today or earlier, by due instant. */
  function OverdueTasks(ts: seq<Task>, today: int): (r: seq<Task>)
    ensures SortedBy(r, ByDueDate)
    ensures forall t :: t in r <==> t in ts && !t.archived && t.dueDate.Some? && DayOf(t.dueDate.value) <= today
    ensures multiset(r) <= multiset(ts)
  {
    var open := Filter(ts, NotArchived);
    var due := Filter(open, DueByDay(today));
    SortMembers(due, ByDueDate);
    Sort(due, ByDueDate)
  }

  /** `todaysTasks`: the open tasks due tomorrow, in stored order. */
  function TodaysTasks(ts: seq<Task>, today: int): (r: seq<Task>)
    ensures forall t :: t in r <==> t in ts && !t.archived && DueDayOrEpoch(t) == today + 1
    ensures multiset(r) <= multiset(ts)
  {
    var open := Filter(ts, NotArchived);
    Filter(open, DueOnDay(today + 1))
  }

  /** The open tasks due after tomorrow, by due instant: what `futureTasks`
      groups. */
  function LaterTasks(ts: seq<Task>, today: int): (r: seq<Task>)
    ensures SortedBy(r, ByDueDate)
    ensures forall t :: t in r <==> t in ts && !t.archived && t.dueDate.Some? && DayOf(t.dueDate.value) > today + 1
    ensures multiset(r) <= multiset(ts)
  {
    var open := Filter(ts, NotArchived);
    var due := Filter(open, DueAfterDay(today + 1));
    SortMembers(due, ByDueDate);
    Sort(due, ByDueDate)
  }

  /** Every open task with a due date is in exactly one of the three lists. A
      task without one is never overdue nor later, and is due "tomorrow" only
      on the day before the epoch. */
  lemma Partition(ts: seq<Task>, today: int, t: Task)
    requires t in ts && !t.archived
    ensures t.dueDate.Some? ==>
              var o, d, l := t in OverdueTasks(ts, today), t in TodaysTasks(ts, today), t in LaterTasks(ts, today);
              (o || d || l) && !(o && d) && !(o && l) && !(d && l)
    ensures t.dueDate.None? ==>
              t !in OverdueTasks(ts, today) && t !in LaterTasks(ts, today)
              && (t in TodaysTasks(ts, today) <==> today == -1)
  {
  }

  // ---------------------------------------------------------------------------
  // formatDate and the future groups

  /** `today - getDay() + 1`: this week's Monday, except on a Sunday, where it
      is the next day. */
  function OverviewMonday(today: int): (m: int)
    ensures Weekday(m) == 1
    ensures today - 5 <= m <= today + 1
    ensures m == today + 1 <==> Weekday(today) == 0
  {
    WeekdayShift(today, 1 - Weekday(today));
    today - Weekday(today) + 1
  }

  /** The week count of the source, computed on instants, is the whole number
      of weeks between the days. */
  lemma WeekDiffInDays(w: int, monday: int)
    ensures (w - Midnight(monday)) / (7 * MsPerDay) == (DayOf(w) - monday) / 7
  {
    var d, r := DayOf(w), w - DayOf(w) * MsPerDay;
    var q, e := (d - monday) / 7, (d - monday) % 7;
    assert d - monday == 7 * q + e;
    assert w - monday * MsPerDay == (7 * MsPerDay) * q + (e * MsPerDay + r);
    assert 0 <= e * MsPerDay + r < 7 * MsPerDay;
  }

  /** `formatDate` for the instant `w` seen from the day `today`: "Morgen" only
      for tomorrow's midnight itself; anything else, tomorrow later in the day
      included, gets a week-relative phrase counted from `OverviewMonday`
      (week counts by `WeekDiffInDays`). */
  function FormatDate(w: int, today: int): (r: Label)
    ensures r == Word("Morgen") <==> w == Midnight(today + 1)
    ensures r.Word?
    ensures w != Midnight(today + 1) ==> r == Word(WeekLabel(DayOf(w), OverviewMonday(today)))
  {
    if w == Midnight(today + 1) then Word("Morgen")
    else
      WeekLabelIsLong(DayOf(w), OverviewMonday(today));
      Word(WeekLabel(DayOf(w), OverviewMonday(today)))
  }

  /** Apart from tomorrow's midnight, the label of an instant is the phrase for
      the week count the source computes on instants (`weekDiff`) from the
      overview's own Monday, and from on that Monday on it reads back as the
      instant's day. */
  lemma FormatDateRecovers(w: int, today: int)
    requires w != Midnight(today + 1)
    ensures var monday := OverviewMonday(today);
            (w - Midnight(monday)) / (7 * MsPerDay) == (DayOf(w) - monday) / 7
            && FormatDate(w, today) == Word(WeekLabel(DayOf(w), monday))
            && (monday <= DayOf(w) ==> ParseWeekLabel(FormatDate(w, today).text, monday) == Some(DayOf(w)))
  {
    var monday := OverviewMonday(today);
    WeekDiffInDays(w, monday);
    if monday <= DayOf(w) {
      WeekLabelRoundTrip(DayOf(w), monday);
    }
  }

  /** The day before the due date, at the same time of day. */
  function WorkInstant(t: Task): int
  {
    DueTimeOrEpoch(t) - MsPerDay
  }

  function WorkLabeler(today: int): Task -> Label
  {
    (t: Task) => FormatDate(WorkInstant(t), today)
  }

  /** From tomorrow on, a label names one day: equal labels mean equal days. */
  lemma LabelNamesDay(a: int, b: int, today: int)
    requires DayOf(a) >= today + 1 && DayOf(b) >= today + 1
    requires FormatDate(a, today) == FormatDate(b, today)
    ensures DayOf(a) == DayOf(b)
    ensures a == Midnight(today + 1) <==> b == Midnight(today + 1)
  {
    if a != Midnight(today + 1) {
      WeekLabelInjective(DayOf(a), DayOf(b), OverviewMonday(today));
    }
  }

  /** From tomorrow on, each label covers an interval of instants: whatever
      lies between two instants with one label has that label too. */
  lemma LabelBetween(a: int, b: int, c: int, today: int)
    requires DayOf(a) >= today + 1 && a <= b <= c
    requires FormatDate(a, today) == FormatDate(c, today)
    ensures FormatDate(b, today) == FormatDate(a, today)
  {
    DayOfMonotone(a, b);
    DayOfMonotone(b, c);
    LabelNamesDay(a, c, today);
  }

  /** Every task has a due date after tomorrow. */
  predicate DueAfterTomorrow(s: seq<Task>, today: int)
  {
    forall i :: 0 <= i < |s| ==> s[i].dueDate.Some? && DayOf(s[i].dueDate.value) > today + 1
  }

  /** Sorted by due date, the later tasks have their labels in runs. */
  lemma LaterTasksContiguous(s: seq<Task>, today: int)
    requires SortedBy(s, ByDueDate)
    requires DueAfterTomorrow(s, today)
    ensures Contiguous(s, WorkLabeler(today))
  {
    forall i, j, k | 0 <= i < j < k < |s| && WorkLabeler(today)(s[i]) == WorkLabeler(today)(s[k])
      ensures WorkLabeler(today)(s[j]) == WorkLabeler(today)(s[i])
    {
      var a := WorkInstant(s[i]);
      assert DayOf(a) == DayOf(s[i].dueDate.value) - 1;
      LabelBetween(a, WorkInstant(s[j]), WorkInstant(s[k]), today);
    }
  }

  /** The pass, one task further. */
  lemma WorkDayStep(tasks: seq<Task>, n: nat, today: int)
    requires n < |tasks|
    ensures GroupBy(tasks[..n + 1], WorkLabeler(today))
            == AddTask(GroupBy(tasks[..n], WorkLabeler(today)), FormatDate(WorkInstant(tasks[n]), today), tasks[n])
  {
    assert tasks[..n + 1] == tasks[..n] + [tasks[n]];
    GroupByStep(tasks[..n], tasks[n], WorkLabeler(today));
  }

  /** The `forEach` pass of `futureTasks`: each task is pushed onto the group
      of its work-day label, which is opened when first seen. */
  method GroupByWorkDay(tasks: seq<Task>, today: int) returns (groups: seq<TaskGroup>)
    ensures groups == GroupBy(tasks, WorkLabeler(today))
  {
    groups := [];
    var n := 0;
    while n < |tasks|
      invariant 0 <= n <= |tasks|
      invariant groups == GroupBy(tasks[..n], WorkLabeler(today))
    {
      var task := tasks[n];
      var date := FormatDate(WorkInstant(task), today);
      groups := Push(groups, date, task);
      WorkDayStep(tasks, n, today);
      n := n + 1;
    }
    assert tasks[..n] == tasks;
  }

  /** `futureTasks`: the later tasks, grouped under the label of their work
      day. Read in order, the groups give back the later tasks in order; the
      headings are the labels in first-seen order, each once; every group is
      non-empty and holds only tasks with its label. */
  method FutureTasks(ts: seq<Task>, today: int) returns (groups: seq<TaskGroup>)
    ensures groups == GroupBy(LaterTasks(ts, today), WorkLabeler(today))
    ensures Flatten(groups) == LaterTasks(ts, today)
    ensures Headings(groups) == Dedup(LabelsOf(LaterTasks(ts, today), WorkLabeler(today)))
    ensures forall i :: 0 <= i < |groups| ==>
              groups[i].tasks != [] && forall t :: t in groups[i].tasks ==> FormatDate(WorkInstant(t), today) == groups[i].date
  {
    var tasks := LaterTasks(ts, today);
    assert forall i :: 0 <= i < |tasks| ==> tasks[i] in tasks;
    groups := GroupByWorkDay(tasks, today);
    WorkDayGroupsInOrder(tasks, today);
    GroupByHeadings(tasks, WorkLabeler(today));
    WorkDayGroupLabels(tasks, today);
  }

  /** Tasks sorted by due date, all due after tomorrow, grouped under their
      work-day labels, come back in order when the groups are read in order. */
  lemma WorkDayGroupsInOrder(tasks: seq<Task>, today: int)
    requires SortedBy(tasks, ByDueDate)
    requires DueAfterTomorrow(tasks, today)
    ensures Flatten(GroupBy(tasks, WorkLabeler(today))) == tasks
  {
    LaterTasksContiguous(tasks, today);
    GroupContiguous(tasks, WorkLabeler(today));
  }

  /** Every group is non-empty and holds only tasks with its label. */
  lemma WorkDayGroupLabels(tasks: seq<Task>, today: int)
    ensures var groups := GroupBy(tasks, WorkLabeler(today));
            forall i :: 0 <= i < |groups| ==>
              groups[i].tasks != [] && forall t :: t in groups[i].tasks ==> FormatDate(WorkInstant(t), today) == groups[i].date
  {
    var groups := GroupBy(tasks, WorkLabeler(today));
    GroupByContents(tasks, WorkLabeler(today));
    forall i | 0 <= i < |groups|
      ensures forall t :: t in groups[i].tasks ==> FormatDate(WorkInstant(t), today) == groups[i].date
    {
      assert forall j :: 0 <= j < |groups[i].tasks| ==> WorkLabeler(today)(groups[i].tasks[j]) == groups[i].date;
    }
  }

  /** All tasks of one future group are to be worked on the same day. */
  lemma GroupSharesWorkDay(ts: seq<Task>, today: int, g: TaskGroup, a: Task, b: Task)
    requires forall t :: t in LaterTasks(ts, today) ==> t in ts
    requires a in LaterTasks(ts, today) && b in LaterTasks(ts, today)
    requires FormatDate(WorkInstant(a), today) == g.date && FormatDate(WorkInstant(b), today) == g.date
    ensures DayOf(WorkInstant(a)) == DayOf(WorkInstant(b)) == DayOf(DueTimeOrEpoch(a)) - 1
  {
    LabelNamesDay(WorkInstant(a), WorkInstant(b), today);
  }

  // ---------------------------------------------------------------------------
  // toggleTask

  /** `toggleTask(task)`: the tasks with that id flip `completed`. */
  function Toggled(ts: seq<Task>, id: string): (r: seq<Task>)
    ensures |r| == |ts|
    ensures forall i :: 0 <= i < |ts| && ts[i].id != id ==> r[i] == ts[i]
    ensures forall i :: 0 <= i < |ts| && ts[i].id == id ==>
              r[i].completed == !ts[i].completed && r[i].(completed := ts[i].completed) == ts[i]
  {
    seq(|ts|, i requires 0 <= i < |ts| => if ts[i].id == id then ts[i].(completed := !ts[i].completed) else ts[i])
  }

  /** Toggling the same task twice restores the list. */
  lemma ToggleTwice(ts: seq<Task>, id: string)
    ensures Toggled(Toggled(ts, id), id) == ts
  {
    assert forall i :: 0 <= i < |ts| ==> Toggled(Toggled(ts, id), id)[i] == ts[i];
  }

  // ---------------------------------------------------------------------------
  // The page

  class TaskOverviewComponent {
    const service: ScheduleService
    var showModal: bool
    var editingTask: Option<Task>

    constructor(service: ScheduleService)
      ensures this.service == service && !showModal && editingTask == None
    {
      this.service := service;
      showModal := false;
      editingTask := None;
    }

    method ToggleTask(task: Task)
      modifies service
      ensures service.tasks == Toggled(old(service.tasks), task.id)
      ensures service.schedule == old(service.schedule) && service.courses == old(service.courses)
    {
      service.tasks := Toggled(service.tasks, task.id);
    }

    method ArchiveCompletedTasks(now: int)
      modifies service
      ensures service.tasks == ArchiveTasks(old(service.tasks), now)
      ensures service.schedule == old(service.schedule) && service.courses == old(service.courses)
    {
      service.ArchiveCompletedTasks(now);
    }

    method ShowAddTaskModal()
      modifies this
      ensures showModal && editingTask == old(editingTask)
    {
      showModal := true;
    }

    method EditTask(task: Task)
      modifies this
      ensures editingTask == Some(task) && showModal == old(showModal)
    {
      editingTask := Some(task);
    }

    /** `closeModal` and `onTaskSubmitted` (whose new random messages are not
        modelled). */
    method CloseModal()
      modifies this
      ensures !showModal && editingTask == None
    {
      showModal := false;
      editingTask := None;
    }
  }
}
