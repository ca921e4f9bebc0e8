/** The schedule service: the planner's shared state (timetable slots, tasks
    and courses). It loads each list from storage when it is created, keeping
    only data that passes its type guards, and writes each list back as JSON
    whenever it changes. */
module Schedule {
  import opened Base
  import opened Models
  import opened Sorting
  import opened Storage

  // ---------------------------------------------------------------------------
  // Type guards

  /** `isValidTimeSlot`: an object with string `day`, `time` and `course`. */
  function IsValidTimeSlot(v: Json): (r: Verdict)
    ensures r == Throw <==> v.JNull?
    ensures r == Pass <==>
              v.JObj? && IsString(Get(v.fields, "day")) && IsString(Get(v.fields, "time")) && IsString(Get(v.fields, "course"))
    ensures r == Pass ==>
              v.JObj? && Get(v.fields, "day") == Some(JStr(DecodeSlot(v).day))
              && Get(v.fields, "time") == Some(JStr(DecodeSlot(v).time))
              && Get(v.fields, "course") == Some(JStr(DecodeSlot(v).course))
  {
    match v
    case JNull => Throw
    case JObj(f) =>
      if IsString(Get(f, "day")) && IsString(Get(f, "time")) && IsString(Get(f, "course")) then Pass else Fail
    case _ => Fail
  }

  /** `isValidTask`: an object with string `id`, `course` and `description`, a
      `dueDate` that is null or a string, and a boolean `completed`. Neither
      `archived` nor `completedAt` is checked. */
  function IsValidTask(v: Json): (r: Verdict)
    ensures r == Throw <==> v.JNull?
    ensures r == Pass <==>
              v.JObj? && IsString(Get(v.fields, "id")) && IsString(Get(v.fields, "course"))
              && IsString(Get(v.fields, "description"))
              && (Get(v.fields, "dueDate") == Some(JNull) || IsString(Get(v.fields, "dueDate")))
              && (Get(v.fields, "completed") == Some(JBool(true)) || Get(v.fields, "completed") == Some(JBool(false)))
  {
    match v
    case JNull => Throw
    case JObj(f) =>
      if IsString(Get(f, "id")) && IsString(Get(f, "course")) && IsString(Get(f, "description"))
         && (Get(f, "dueDate") == Some(JNull) || IsString(Get(f, "dueDate")))
         && Get(f, "completed").Some? && Get(f, "completed").value.JBool?
      then Pass else Fail
    case _ => Fail
  }

  /** `isValidCourse`: an object with string `id` and `name` and an array of
      `materials` (whose entries are not checked). */
  function IsValidCourse(v: Json): (r: Verdict)
    ensures r == Throw <==> v.JNull?
    ensures r == Pass <==>
              v.JObj? && IsString(Get(v.fields, "id")) && IsString(Get(v.fields, "name"))
              && Get(v.fields, "materials").Some? && Get(v.fields, "materials").value.JArr?
    ensures r == Pass ==>
              v.JObj? && Get(v.fields, "id") == Some(JStr(DecodeCourse(v).id))
              && Get(v.fields, "name") == Some(JStr(DecodeCourse(v).name))
              && Get(v.fields, "materials").Some? && Get(v.fields, "materials").value.JArr?
              && |DecodeCourse(v).materials| == |Get(v.fields, "materials").value.items|
  {
    match v
    case JNull => Throw
    case JObj(f) =>
      if IsString(Get(f, "id")) && IsString(Get(f, "name")) && Get(f, "materials").Some? && Get(f, "materials").value.JArr?
      then Pass else Fail
    case _ => Fail
  }

  /** `isValidTask` looks at five properties only: two stored tasks that agree
      on `id`, `course`, `description`, `dueDate` and `completed` get the same
      verdict, whatever their `archived` or `completedAt`. */
  lemma TaskGuardIgnoresExtras(f: map<string, Json>, g: map<string, Json>)
    requires forall k :: k in ["id", "course", "description", "dueDate", "completed"] ==> Get(f, k) == Get(g, k)
    ensures IsValidTask(JObj(f)) == IsValidTask(JObj(g))
  {
    assert Get(f, "id") == Get(g, "id");
    assert Get(f, "course") == Get(g, "course");
    assert Get(f, "description") == Get(g, "description");
    assert Get(f, "dueDate") == Get(g, "dueDate");
    assert Get(f, "completed") == Get(g, "completed");
  }

  // ---------------------------------------------------------------------------
  // Reading stored values as records

  function FieldsOf(v: Json): map<string, Json>
  {
    if v.JObj? then v.fields else map[]
  }

  /** An optional string field such as `class` or `color`. */
  function OptionalString(v: Option<Json>): Option<string>
  {
    if v.Some? && v.value.JStr? then Some(v.value.s) else None
  }

  function DecodeSlot(v: Json): TimeSlot
  {
    var f := FieldsOf(v);
    TimeSlot(StringOr(Get(f, "day")), StringOr(Get(f, "time")), StringOr(Get(f, "course")), OptionalString(Get(f, "class")))
  }

  function DecodeMaterial(v: Json): Material
  {
    var f := FieldsOf(v);
    Material(StringOr(Get(f, "id")), StringOr(Get(f, "name")), StringOr(Get(f, "type")))
  }

  function DecodeCourse(v: Json): Course
  {
    var f := FieldsOf(v);
    var ms := if Get(f, "materials").Some? && Get(f, "materials").value.JArr? then Get(f, "materials").value.items else [];
    Course(StringOr(Get(f, "id")), StringOr(Get(f, "name")), OptionalString(Get(f, "color")),
           seq(|ms|, i requires 0 <= i < |ms| => DecodeMaterial(ms[i])))
  }

  /** `x ? new Date(x) : null` for a stored date; `parseDate` is `new Date(s)` on
      a string, None for an invalid date. */
  function ToDate(v: Option<Json>, parseDate: string -> Option<int>): (r: Option<int>)
    ensures r.Some? ==> Truthy(v)
    ensures v.Some? && v.value.JStr? && v.value.s != "" ==> r == parseDate(v.value.s)
  {
    if !Truthy(v) then None
    else match v.value
      case JStr(s) => parseDate(s)
      case JNum(n) => Some(n)
      case JBool(_) => Some(1)
      case _ => None
  }

  /** The record the loader builds from a task that passed the guard:
      `{...task, dueDate, completedAt, archived: task.archived || false}`. */
  function DecodeTask(v: Json, parseDate: string -> Option<int>): Task
  {
    var f := FieldsOf(v);
    Task(StringOr(Get(f, "id")), StringOr(Get(f, "course")), StringOr(Get(f, "description")),
         ToDate(Get(f, "dueDate"), parseDate),
         Get(f, "completed") == Some(JBool(true)),
         Truthy(Get(f, "archived")),
         ToDate(Get(f, "completedAt"), parseDate))
  }

  /** The defaults the loader fills in: a stored task without `archived` is
      not archived, one without `completedAt` (or with `null`) has no
      completion time, and a `null` due date is no due date. */
  lemma DecodeTaskDefaults(f: map<string, Json>, parseDate: string -> Option<int>)
    ensures "archived" !in f ==> !DecodeTask(JObj(f), parseDate).archived
    ensures Get(f, "archived") == Some(JBool(true)) ==> DecodeTask(JObj(f), parseDate).archived
    ensures ("completedAt" !in f || f["completedAt"] == JNull) ==> DecodeTask(JObj(f), parseDate).completedAt == None
    ensures Get(f, "dueDate") == Some(JNull) ==> DecodeTask(JObj(f), parseDate).dueDate == None
  {
  }

  /** The timetable the service starts with. All or nothing: a stored array
      whose every entry passes the guard is taken whole; anything else (no
      value, unparsable text, not an array, one bad entry) gives []. */
  function LoadSchedule(stored: Stored): (r: seq<TimeSlot>)
    ensures r != [] ==>
              stored.Parsed? && stored.value.JArr? && |r| == |stored.value.items|
              && forall i :: 0 <= i < |stored.value.items| ==> IsValidTimeSlot(stored.value.items[i]) == Pass
    ensures stored.Parsed? && stored.value.JArr?
            && (forall i :: 0 <= i < |stored.value.items| ==> IsValidTimeSlot(stored.value.items[i]) == Pass)
            ==> |r| == |stored.value.items|
                && forall i :: 0 <= i < |stored.value.items| ==> r[i] == DecodeSlot(stored.value.items[i])
  {
    match stored
    case Parsed(JArr(items)) =>
      if forall i :: 0 <= i < |items| ==> IsValidTimeSlot(items[i]) == Pass
      then seq(|items|, i requires 0 <= i < |items| => DecodeSlot(items[i]))
      else []
    case _ => []
  }

  /** The courses the service starts with, with the same all-or-nothing policy. */
  function LoadCourses(stored: Stored): (r: seq<Course>)
    ensures r != [] ==>
              stored.Parsed? && stored.value.JArr? && |r| == |stored.value.items|
              && forall i :: 0 <= i < |stored.value.items| ==> IsValidCourse(stored.value.items[i]) == Pass
    ensures stored.Parsed? && stored.value.JArr?
            && (forall i :: 0 <= i < |stored.value.items| ==> IsValidCourse(stored.value.items[i]) == Pass)
            ==> |r| == |stored.value.items|
                && forall i :: 0 <= i < |stored.value.items| ==> r[i] == DecodeCourse(stored.value.items[i])
  {
    match stored
    case Parsed(JArr(items)) =>
      if forall i :: 0 <= i < |items| ==> IsValidCourse(items[i]) == Pass
      then seq(|items|, i requires 0 <= i < |items| => DecodeCourse(items[i]))
      else []
    case _ => []
  }

  /** `tasks.filter(isValidTask).map(...)` without a throw: the entries that
      pass the guard, converted, in order. */
  function KeepTasks(items: seq<Json>, parseDate: string -> Option<int>): (r: seq<Task>)
    ensures |r| <= |items|
    ensures (forall i :: 0 <= i < |items| ==> IsValidTask(items[i]) == Pass) ==> |r| == |items|
    ensures (forall i :: 0 <= i < |items| ==> IsValidTask(items[i]) != Pass) ==> r == []
  {
    if items == [] then []
    else (if IsValidTask(items[0]) == Pass then [DecodeTask(items[0], parseDate)] else [])
         + KeepTasks(items[1..], parseDate)
  }

  predicate PassesTaskGuard(v: Json)
  {
    IsValidTask(v) == Pass
  }

  /** Every entry decoded, in order. */
  function DecodeTasks(items: seq<Json>, parseDate: string -> Option<int>): seq<Task>
  {
    if items == [] then [] else [DecodeTask(items[0], parseDate)] + DecodeTasks(items[1..], parseDate)
  }

  /** The tasks kept are exactly the entries that pass the guard, decoded, in
      their stored order. */
  lemma {:induction false} KeepTasksFiltered(items: seq<Json>, parseDate: string -> Option<int>)
    ensures KeepTasks(items, parseDate) == DecodeTasks(Filter(items, PassesTaskGuard), parseDate)
    decreases |items|
  {
    if items != [] {
      KeepTasksFiltered(items[1..], parseDate);
      var rest := Filter(items[1..], PassesTaskGuard);
      var kept := Filter(items, PassesTaskGuard);
      if IsValidTask(items[0]) == Pass {
        assert kept == [items[0]] + rest;
        assert kept[1..] == rest;
      } else {
        assert kept == rest;
      }
    }
  }

  /** The tasks the service starts with. Entry by entry: entries failing the
      guard are dropped and the rest kept; but an entry that makes the guard
      throw (a `null`), or a stored value that is not an array, loses them all. */
  function LoadTasks(stored: Stored, parseDate: string -> Option<int>): (r: seq<Task>)
    ensures stored.Parsed? && stored.value.JArr?
            && (exists i :: 0 <= i < |stored.value.items| && IsValidTask(stored.value.items[i]) == Throw)
            ==> r == []
    ensures !(stored.Parsed? && stored.value.JArr?) ==> r == []
    ensures stored.Parsed? && stored.value.JArr?
            && !(exists i :: 0 <= i < |stored.value.items| && IsValidTask(stored.value.items[i]) == Throw)
            ==> r == DecodeTasks(Filter(stored.value.items, PassesTaskGuard), parseDate)
  {
    match stored
    case Parsed(JArr(items)) =>
      if exists i :: 0 <= i < |items| && IsValidTask(items[i]) == Throw then []
      else KeepTasksFiltered(items, parseDate); KeepTasks(items, parseDate)
    case _ => []
  }

  // ---------------------------------------------------------------------------
  // Writing records as JSON (`JSON.stringify`); `printDate` is `toISOString`.

  function SaveSlot(s: TimeSlot): Json
  {
    var base := map["day" := JStr(s.day), "time" := JStr(s.time), "course" := JStr(s.course)];
    JObj(if s.cls.Some? then base["class" := JStr(s.cls.value)] else base)
  }

  function SaveMaterial(m: Material): Json
  {
    JObj(map["id" := JStr(m.id), "name" := JStr(m.name), "type" := JStr(m.kind)])
  }

  function SaveCourse(c: Course): Json
  {
    var base := map["id" := JStr(c.id), "name" := JStr(c.name),
                    "materials" := JArr(seq(|c.materials|, i requires 0 <= i < |c.materials| => SaveMaterial(c.materials[i])))];
    JObj(if c.color.Some? then base["color" := JStr(c.color.value)] else base)
  }

  function SaveDate(d: Option<int>, printDate: int -> string): Json
  {
    if d.Some? then JStr(printDate(d.value)) else JNull
  }

  function SaveTask(t: Task, printDate: int -> string): Json
  {
    JObj(map["id" := JStr(t.id), "course" := JStr(t.course), "description" := JStr(t.description),
             "dueDate" := SaveDate(t.dueDate, printDate), "completed" := JBool(t.completed),
             "archived" := JBool(t.archived), "completedAt" := SaveDate(t.completedAt, printDate)])
  }

  function SaveSchedule(ss: seq<TimeSlot>): Json
  {
    JArr(seq(|ss|, i requires 0 <= i < |ss| => SaveSlot(ss[i])))
  }

  function SaveCourses(cs: seq<Course>): Json
  {
    JArr(seq(|cs|, i requires 0 <= i < |cs| => SaveCourse(cs[i])))
  }

  function SaveTasks(ts: seq<Task>, printDate: int -> string): Json
  {
    JArr(seq(|ts|, i requires 0 <= i < |ts| => SaveTask(ts[i], printDate)))
  }

  /** A date printer whose text `new Date(...)` reads back as the same instant. */
  ghost predicate DateCodec(printDate: int -> string, parseDate: string -> Option<int>)
  {
    forall t :: printDate(t) != "" && parseDate(printDate(t)) == Some(t)
  }

  lemma DateCodecAt(printDate: int -> string, parseDate: string -> Option<int>, t: int)
    requires DateCodec(printDate, parseDate)
    ensures printDate(t) != "" && parseDate(printDate(t)) == Some(t)
  {
  }

  lemma SlotRoundTrip(s: TimeSlot)
    ensures IsValidTimeSlot(SaveSlot(s)) == Pass
    ensures DecodeSlot(SaveSlot(s)) == s
  {
  }

  lemma CourseRoundTrip(c: Course)
    ensures IsValidCourse(SaveCourse(c)) == Pass
    ensures DecodeCourse(SaveCourse(c)) == c
  {
    var ms := seq(|c.materials|, i requires 0 <= i < |c.materials| => SaveMaterial(c.materials[i]));
    assert Get(FieldsOf(SaveCourse(c)), "materials") == Some(JArr(ms));
    var decoded := seq(|ms|, i requires 0 <= i < |ms| => DecodeMaterial(ms[i]));
    assert decoded == c.materials;
  }

  lemma TaskRoundTrip(t: Task, printDate: int -> string, parseDate: string -> Option<int>)
    requires DateCodec(printDate, parseDate)
    ensures IsValidTask(SaveTask(t, printDate)) == Pass
    ensures DecodeTask(SaveTask(t, printDate), parseDate) == t
  {
    if t.dueDate.Some? {
      DateCodecAt(printDate, parseDate, t.dueDate.value);
    }
    if t.completedAt.Some? {
      DateCodecAt(printDate, parseDate, t.completedAt.value);
    }
  }

  /** What the service writes for its timetable it reads back unchanged. */
  lemma ScheduleRoundTrip(ss: seq<TimeSlot>)
    ensures LoadSchedule(Parsed(SaveSchedule(ss))) == ss
  {
    forall i | 0 <= i < |ss| {
      SlotRoundTrip(ss[i]);
    }
  }

  /** What the service writes for its courses it reads back unchanged. */
  lemma CoursesRoundTrip(cs: seq<Course>)
    ensures LoadCourses(Parsed(SaveCourses(cs))) == cs
  {
    forall i | 0 <= i < |cs| {
      CourseRoundTrip(cs[i]);
    }
  }

  /** Entries that all pass the guard are all kept, each decoded in place. */
  lemma {:induction false} KeepAllValid(items: seq<Json>, ts: seq<Task>, parseDate: string -> Option<int>)
    requires |items| == |ts|
    requires forall i :: 0 <= i < |items| ==> IsValidTask(items[i]) == Pass && DecodeTask(items[i], parseDate) == ts[i]
    ensures KeepTasks(items, parseDate) == ts
    decreases |items|
  {
    if items != [] {
      KeepAllValid(items[1..], ts[1..], parseDate);
      assert ts == [ts[0]] + ts[1..];
    }
  }

  /** What the service writes for its tasks it reads back unchanged, provided
      dates print as text that reads back as the same instant. */
  lemma TasksRoundTrip(ts: seq<Task>, printDate: int -> string, parseDate: string -> Option<int>)
    requires DateCodec(printDate, parseDate)
    ensures LoadTasks(Parsed(SaveTasks(ts, printDate)), parseDate) == ts
  {
    var items := SaveTasks(ts, printDate).items;
    forall i | 0 <= i < |items|
      ensures IsValidTask(items[i]) == Pass && DecodeTask(items[i], parseDate) == ts[i]
    {
      TaskRoundTrip(ts[i], printDate, parseDate);
    }
    KeepAllValid(items, ts, parseDate);
  }

  // ---------------------------------------------------------------------------
  // Operations on the task list

  /** The change `archiveCompletedTasks` makes to one task. */
  function ArchiveTask(t: Task, now: int): (r: Task)
    ensures r.archived == (t.archived || t.completed)
    ensures r.(archived := t.archived, completedAt := t.completedAt) == t
    ensures r != t ==> r.completedAt == Some(now) && !t.archived
  {
    if t.completed && !t.archived then t.(archived := true, completedAt := Some(now)) else t
  }

  /** `archiveCompletedTasks` at instant `now`: every completed task ends up
      archived, tasks keep their place, and only a newly archived task changes,
      in its `archived` flag and its completion time (which becomes `now`). */
  function ArchiveTasks(ts: seq<Task>, now: int): (r: seq<Task>)
    ensures |r| == |ts|
    ensures forall i :: 0 <= i < |ts| ==> r[i].archived == (ts[i].archived || ts[i].completed)
    ensures forall i :: 0 <= i < |ts| ==> r[i].(archived := ts[i].archived, completedAt := ts[i].completedAt) == ts[i]
    ensures forall i :: 0 <= i < |ts| && r[i] != ts[i] ==> r[i].completedAt == Some(now)
    ensures forall i :: 0 <= i < |ts| && !(ts[i].completed && !ts[i].archived) ==> r[i] == ts[i]
  {
    seq(|ts|, i requires 0 <= i < |ts| => ArchiveTask(ts[i], now))
  }

  /** Archiving twice is archiving once: the second pass finds nothing to do. */
  lemma ArchiveIdempotent(ts: seq<Task>, now: int, later: int)
    ensures ArchiveTasks(ArchiveTasks(ts, now), later) == ArchiveTasks(ts, now)
  {
  }

  /** A task survives `deleteCompletedTasks` unless it is completed and archived. */
  predicate KeptOnDelete(t: Task)
  {
    !t.completed || !t.archived
  }

  /** `deleteCompletedTasks`: the tasks that are not both completed and
      archived, in order. */
  function DeleteCompleted(ts: seq<Task>): (r: seq<Task>)
    ensures forall t :: t in r <==> t in ts && KeptOnDelete(t)
    ensures multiset(r) <= multiset(ts)
  {
    Filter(ts, KeptOnDelete)
  }

  predicate IsOpen(t: Task)
  {
    !t.completed
  }

  /** Archiving and then deleting removes exactly the completed tasks and
      leaves the open ones, unchanged and in order. */
  lemma {:induction false} ArchiveThenDelete(ts: seq<Task>, now: int)
    ensures DeleteCompleted(ArchiveTasks(ts, now)) == Filter(ts, IsOpen)
    decreases |ts|
  {
    if ts != [] {
      ArchiveThenDelete(ts[1..], now);
      assert ArchiveTasks(ts, now)[1..] == ArchiveTasks(ts[1..], now);
    }
  }

  // ---------------------------------------------------------------------------
  // Derived values

  function CourseNames(cs: seq<Course>): (r: seq<string>)
    ensures |r| == |cs| && forall i :: 0 <= i < |cs| ==> r[i] == cs[i].name
  {
    seq(|cs|, i requires 0 <= i < |cs| => cs[i].name)
  }

  /** `uniqueCourses`: the course names, each once, in `sort()` order. */
  function UniqueCourses(cs: seq<Course>): (r: seq<string>)
    ensures StringsSorted(r)
    ensures forall x :: x in r <==> x in CourseNames(cs)
    ensures forall i, j :: 0 <= i < j < |r| ==> r[i] != r[j]
  {
    var d := Dedup(CourseNames(cs));
    var r := SortStrings(d);
    assert forall x :: x in r <==> x in d by {
      forall x ensures x in r <==> x in d {
        assert x in r <==> x in multiset(r);
        assert x in d <==> x in multiset(d);
      }
    }
    DistinctByCount(d);
    CountDistinct(r);
    r
  }

  lemma DistinctByCount(s: seq<string>)
    requires forall i, j :: 0 <= i < j < |s| ==> s[i] != s[j]
    ensures forall x :: multiset(s)[x] <= 1
  {
    if s != [] {
      var p := s[..|s| - 1];
      DistinctByCount(p);
      assert s == p + [s[|s| - 1]];
      assert s[|s| - 1] !in p;
    }
  }

  lemma CountDistinct(s: seq<string>)
    requires forall x :: multiset(s)[x] <= 1
    ensures forall i, j :: 0 <= i < j < |s| ==> s[i] != s[j]
  {
    forall i, j | 0 <= i < j < |s|
      ensures s[i] != s[j]
    {
      assert s == s[..j] + s[j..];
      assert s[i] in multiset(s[..j]);
      assert s[j] in multiset(s[j..]);
      assert multiset(s)[s[i]] == multiset(s[..j])[s[i]] + multiset(s[j..])[s[i]];
    }
  }

  // ---------------------------------------------------------------------------
  // The service

  class ScheduleService {
    var schedule: seq<TimeSlot>
    var tasks: seq<Task>
    var courses: seq<Course>

    /** Loads the three lists from what storage holds for 'schedule', 'tasks'
        and 'courses'. */
    constructor(savedSchedule: Stored, savedTasks: Stored, savedCourses: Stored, parseDate: string -> Option<int>)
      ensures schedule == LoadSchedule(savedSchedule)
      ensures tasks == LoadTasks(savedTasks, parseDate)
      ensures courses == LoadCourses(savedCourses)
    {
      schedule := LoadSchedule(savedSchedule);
      tasks := LoadTasks(savedTasks, parseDate);
      courses := LoadCourses(savedCourses);
    }

    method ArchiveCompletedTasks(now: int)
      modifies this
      ensures tasks == ArchiveTasks(old(tasks), now)
      ensures schedule == old(schedule) && courses == old(courses)
    {
      tasks := ArchiveTasks(tasks, now);
    }

    method DeleteCompletedTasks()
      modifies this
      ensures tasks == DeleteCompleted(old(tasks))
      ensures schedule == old(schedule) && courses == old(courses)
    {
      tasks := DeleteCompleted(tasks);
    }
  }
}
