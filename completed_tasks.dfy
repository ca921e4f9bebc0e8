/** The archive page: archived tasks, newest completion first, grouped under
    the day they were completed ("Heute", "Gestern" or the numeric date). */
module CompletedTasks {
  import opened Base
  import opened Calendar
  import opened Labels
  import opened Models
  import opened Sorting
  import opened Grouping
  import opened Schedule

  /** `formatDate(completedAt)` seen from the day `today`: "Heute", "Gestern"
      or the dd.mm.yyyy date; never a week-relative phrase. */
  function FormatDate(t: int, today: int): (r: Label)
    ensures r == Word("Heute") <==> DayOf(t) == today
    ensures r == Word("Gestern") <==> DayOf(t) == today - 1
    ensures r.NumericDate? <==> DayOf(t) != today && DayOf(t) != today - 1
    ensures r.NumericDate? ==> r.day == DayOf(t)
    ensures !r.LongDate?
  {
    if DayOf(t) == today then Word("Heute")
    else if DayOf(t) == today - 1 then Word("Gestern")
    else NumericDate(DayOf(t))
  }

  /** Two completion instants share a label exactly when they fall on the same
      day. */
  lemma LabelIsDay(a: int, b: int, today: int)
    ensures FormatDate(a, today) == FormatDate(b, today) <==> DayOf(a) == DayOf(b)
  {
  }

  predicate IsArchived(t: Task)
  {
    t.archived
  }

  predicate HasCompletedAt(t: Task)
  {
    t.completedAt.Some?
  }

  /** The completion instant (the pass only asks for it when there is one). */
  function CompletedTime(t: Task): int
  {
    if t.completedAt.Some? then t.completedAt.value else 0
  }

  function CompletionLabeler(today: int): Task -> Label
  {
    (t: Task) => FormatDate(CompletedTime(t), today)
  }

  /** The archived tasks, newest completion first. */
  function ArchivedNewestFirst(ts: seq<Task>): (r: seq<Task>)
    ensures SortedBy(r, NewestCompletedFirst)
    ensures forall t :: t in r <==> t in ts && t.archived
    ensures multiset(r) <= multiset(ts)
  {
    var archived := Filter(ts, IsArchived);
    SortMembers(archived, NewestCompletedFirst);
    Sort(archived, NewestCompletedFirst)
  }

  /** Sorted newest first, with every completion instant present, the tasks
      have their labels in runs. */
  lemma NewestFirstContiguous(s: seq<Task>, today: int)
    requires SortedBy(s, NewestCompletedFirst)
    requires forall i :: 0 <= i < |s| ==> s[i].completedAt.Some?
    ensures Contiguous(s, CompletionLabeler(today))
  {
    forall i, j, k | 0 <= i < j < k < |s| && CompletionLabeler(today)(s[i]) == CompletionLabeler(today)(s[k])
      ensures CompletionLabeler(today)(s[j]) == CompletionLabeler(today)(s[i])
    {
      var a, b, c := CompletedTime(s[i]), CompletedTime(s[j]), CompletedTime(s[k]);
      assert c <= b <= a;
      LabelIsDay(a, c, today);
      DayOfMonotone(c, b);
      DayOfMonotone(b, a);
      LabelIsDay(a, b, today);
    }
  }

  /** The `forEach` pass of `archivedTasks` over `s`: tasks without
      `completedAt` are skipped; every other task is pushed onto the group of
      its completion label, which is opened when first seen. */
  function GroupCompleted(s: seq<Task>, today: int): seq<TaskGroup>
    decreases |s|
  {
    if s == [] then []
    else
      var groups := GroupCompleted(s[..|s| - 1], today);
      var task := s[|s| - 1];
      if task.completedAt.Some? then AddTask(groups, FormatDate(task.completedAt.value, today), task)
      else groups
  }

  /** Skipping the tasks without a completion instant is grouping the
      filtered tasks. */
  lemma {:induction false} GroupCompletedFilters(s: seq<Task>, today: int)
    ensures GroupCompleted(s, today) == GroupBy(Filter(s, HasCompletedAt), CompletionLabeler(today))
    decreases |s|
  {
    if s != [] {
      var p, task := s[..|s| - 1], s[|s| - 1];
      assert s == p + [task];
      GroupCompletedFilters(p, today);
      FilterSnoc(p, task, HasCompletedAt);
      var kept := Filter(p, HasCompletedAt);
      if task.completedAt.Some? {
        assert Filter(s, HasCompletedAt) == kept + [task];
        assert CompletionLabeler(today)(task) == FormatDate(task.completedAt.value, today);
        GroupByStep(kept, task, CompletionLabeler(today));
      } else {
        assert Filter(s, HasCompletedAt) == kept;
      }
    }
  }

  /** The loop of `archivedTasks`. */
  method GroupByCompletion(tasks: seq<Task>, today: int) returns (groups: seq<TaskGroup>)
    ensures groups == GroupBy(Filter(tasks, HasCompletedAt), CompletionLabeler(today))
  {
    groups := [];
    var n := 0;
    while n < |tasks|
      invariant 0 <= n <= |tasks|
      invariant groups == GroupCompleted(tasks[..n], today)
    {
      var task := tasks[n];
      assert tasks[..n + 1][..n] == tasks[..n];
      if task.completedAt.Some? {
        var date := FormatDate(task.completedAt.value, today);
        groups := Push(groups, date, task);
      }
      n := n + 1;
    }
    assert tasks[..n] == tasks;
    GroupCompletedFilters(tasks, today);
  }

  /** What `archivedTasks` shows: the archived tasks, newest completion
      first, grouped under their completion label. */
  function ArchiveGroups(ts: seq<Task>, today: int): seq<TaskGroup>
  {
    GroupBy(Filter(ArchivedNewestFirst(ts), HasCompletedAt), CompletionLabeler(today))
  }

  /** `archivedTasks`: sort the archived tasks, then run the grouping pass. */
  method ArchivedTasks(ts: seq<Task>, today: int) returns (groups: seq<TaskGroup>)
    ensures groups == ArchiveGroups(ts, today)
  {
    var tasks := ArchivedNewestFirst(ts);
    groups := GroupByCompletion(tasks, today);
  }

  /** Exactly the archived tasks with a completion instant are shown. */
  lemma ArchiveMembers(ts: seq<Task>, today: int)
    ensures forall t :: t in Flatten(ArchiveGroups(ts, today)) <==> t in ts && t.archived && t.completedAt.Some?
  {
    var s := Filter(ArchivedNewestFirst(ts), HasCompletedAt);
    var groups := GroupBy(s, CompletionLabeler(today));
    GroupByPermutes(s, CompletionLabeler(today));
    forall t
      ensures t in Flatten(groups) <==> t in s
    {
      assert t in Flatten(groups) <==> t in multiset(Flatten(groups));
      assert t in s <==> t in multiset(s);
    }
  }

  /** No completion label heads two groups. */
  lemma ArchiveHeadingsDistinct(ts: seq<Task>, today: int)
    ensures forall i, j :: 0 <= i < j < |ArchiveGroups(ts, today)| ==>
              ArchiveGroups(ts, today)[i].date != ArchiveGroups(ts, today)[j].date
  {
    var s := Filter(ArchivedNewestFirst(ts), HasCompletedAt);
    var groups := GroupBy(s, CompletionLabeler(today));
    GroupByHeadings(s, CompletionLabeler(today));
    forall i, j | 0 <= i < j < |groups|
      ensures groups[i].date != groups[j].date
    {
      assert Headings(groups)[i] != Headings(groups)[j];
    }
  }

  /** Every group is non-empty and its tasks were completed on one day. */
  predicate OneDayPerGroup(groups: seq<TaskGroup>)
  {
    forall i :: 0 <= i < |groups| ==>
      groups[i].tasks != [] && forall t :: t in groups[i].tasks ==> DayOf(CompletedTime(t)) == DayOf(CompletedTime(groups[i].tasks[0]))
  }

  /** Each group of the archive holds the tasks of one completion day. */
  lemma ArchiveOneDay(ts: seq<Task>, today: int)
    ensures OneDayPerGroup(ArchiveGroups(ts, today))
  {
    var s := Filter(ArchivedNewestFirst(ts), HasCompletedAt);
    var groups := GroupBy(s, CompletionLabeler(today));
    GroupByContents(s, CompletionLabeler(today));
    forall i, t | 0 <= i < |groups| && t in groups[i].tasks
      ensures DayOf(CompletedTime(t)) == DayOf(CompletedTime(groups[i].tasks[0]))
    {
      assert forall j :: 0 <= j < |groups[i].tasks| ==> CompletionLabeler(today)(groups[i].tasks[j]) == groups[i].date;
      LabelIsDay(CompletedTime(t), CompletedTime(groups[i].tasks[0]), today);
    }
  }

  /** When every archived task has a completion instant, reading the groups in
      order gives all archived tasks, newest first. */
  lemma ArchiveInOrder(ts: seq<Task>, today: int)
    requires forall t :: t in ts && t.archived ==> t.completedAt.Some?
    ensures Flatten(ArchiveGroups(ts, today)) == ArchivedNewestFirst(ts)
  {
    var tasks := ArchivedNewestFirst(ts);
    assert forall i :: 0 <= i < |tasks| ==> tasks[i] in tasks;
    FilterAll(tasks, HasCompletedAt);
    NewestFirstContiguous(tasks, today);
    GroupContiguous(tasks, CompletionLabeler(today));
  }

  // ---------------------------------------------------------------------------
  // unmarkCompleted / deleteTask

  /** `unmarkCompleted(task)`: the tasks with that id become open again. */
  function Unmarked(ts: seq<Task>, id: string): (r: seq<Task>)
    ensures |r| == |ts|
  {
    seq(|ts|, i requires 0 <= i < |ts| =>
      if ts[i].id == id then ts[i].(completed := false, archived := false, completedAt := None) else ts[i])
  }

  /** Only the tasks with that id change: they are open, unarchived and without
      completion instant, with course, description and due date kept. */
  lemma UnmarkOnlyThatTask(ts: seq<Task>, id: string)
    ensures var r := Unmarked(ts, id);
            (forall i :: 0 <= i < |ts| && ts[i].id != id ==> r[i] == ts[i])
            && (forall i :: 0 <= i < |ts| && ts[i].id == id ==>
                  !r[i].completed && !r[i].archived && r[i].completedAt == None
                  && r[i].id == id && r[i].course == ts[i].course && r[i].description == ts[i].description
                  && r[i].dueDate == ts[i].dueDate)
  {
  }

  /** An unmarked task is no longer in the archive. */
  lemma UnmarkLeavesArchive(ts: seq<Task>, id: string, t: Task)
    requires t in ArchivedNewestFirst(Unmarked(ts, id))
    ensures t.id != id && t in ts
  {
  }

  function IdIsNot(id: string): Task -> bool
  {
    (t: Task) => t.id != id
  }

  /** `deleteTask(taskId)`: removes exactly the tasks with that id. */
  function Deleted(ts: seq<Task>, id: string): (r: seq<Task>)
    ensures forall t :: t in r <==> t in ts && t.id != id
    ensures multiset(r) <= multiset(ts)
  {
    Filter(ts, IdIsNot(id))
  }

  /** Deleting an id that no task has changes nothing. */
  lemma DeleteMissing(ts: seq<Task>, id: string)
    requires forall i :: 0 <= i < |ts| ==> ts[i].id != id
    ensures Deleted(ts, id) == ts
  {
    FilterAll(ts, IdIsNot(id));
  }

  class CompletedTasksComponent {
    const service: ScheduleService

    constructor(service: ScheduleService)
      ensures this.service == service
    {
      this.service := service;
    }

    method UnmarkCompleted(task: Task)
      modifies service
      ensures service.tasks == Unmarked(old(service.tasks), task.id)
      ensures service.schedule == old(service.schedule) && service.courses == old(service.courses)
    {
      service.tasks := Unmarked(service.tasks, task.id);
    }

    method DeleteTask(taskId: string)
      modifies service
      ensures service.tasks == Deleted(old(service.tasks), taskId)
      ensures service.schedule == old(service.schedule) && service.courses == old(service.courses)
    {
      service.tasks := Deleted(service.tasks, taskId);
    }
  }
}
