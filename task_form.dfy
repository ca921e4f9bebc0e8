/** The task form: creating a task or editing one, picking a course, typing a
    description (with material names inserted at the cursor) and a due date. */
module TaskForm {
  import opened Base
  import opened Text
  import opened Models
  import opened Schedule

  /** `currentCourseMaterials`: the materials of the first course with the
      chosen name; nothing when no course is chosen or none has that name. */
  function CourseMaterials(cs: seq<Course>, course: string): (r: seq<Material>)
    ensures course == "" || (forall i :: 0 <= i < |cs| ==> cs[i].name != course) ==> r == []
    ensures course != "" && (exists i :: 0 <= i < |cs| && cs[i].name == course) ==>
              exists i :: 0 <= i < |cs| && cs[i].name == course && r == cs[i].materials
                          && forall j :: 0 <= j < i ==> cs[j].name != course
  {
    var names := CourseNames(cs);
    var i := IndexOf(names, course);
    if course == "" then []
    else if i < 0 then
      assert forall k :: 0 <= k < |cs| ==> cs[k].name == names[k];
      []
    else cs[i].materials
  }

  // ---------------------------------------------------------------------------
  // insertMaterial

  /** Where the word under the cursor starts: just after the last whitespace
      character of `s`, or 0 when there is none. */
  function WordStart(s: string): (k: nat)
    ensures k <= |s|
    ensures forall i :: k <= i < |s| ==> !IsWhitespace(s[i])
    ensures k > 0 ==> IsWhitespace(s[k - 1])
    decreases |s|
  {
    if s == [] then 0
    else if IsWhitespace(s[|s| - 1]) then |s|
    else WordStart(s[..|s| - 1])
  }

  /** What `insertMaterial` keeps of the text before the cursor: the pieces of
      `split(/\s/)` but the last, joined by spaces, plus a separating space when
      there were any. That is the text up to the word under the cursor, with
      every whitespace character turned into a space; the popped piece is that
      word. */
  lemma {:induction false} KeptBeforeWord(s: string)
    ensures var words := Split(s, Whitespace);
            var n := |words| - 1;
            Join(words[..n], " ") + (if n > 0 then " " else "") == Spaced(s[..WordStart(s)], Whitespace)
            && words[n] == s[WordStart(s)..]
  {
    var words := Split(s, Whitespace);
    var n := |words| - 1;
    var k := WordStart(s);
    if k == 0 {
      assert HasNone(s, Whitespace);
      SplitNone(s, Whitespace);
      assert s[..0] == "";
    } else {
      var x, c, y := s[..k - 1], s[k - 1], s[k..];
      assert s == x + [c] + y;
      assert HasNone(y, Whitespace);
      SplitAt(x, c, y, Whitespace);
      SplitNone(y, Whitespace);
      assert words == Split(x, Whitespace) + [y];
      assert words[..n] == Split(x, Whitespace);
      JoinSplit(x, Whitespace);
      assert s[..k] == x + [c];
      SpacedSnoc(x, c, Whitespace);
    }
  }

  // ---------------------------------------------------------------------------
  // onSubmit

  /** The edit branch of `onSubmit`: the tasks with that id take the form's
      course, description and due date. */
  function EditedTasks(ts: seq<Task>, id: string, course: string, description: string, due: int): (r: seq<Task>)
    ensures |r| == |ts|
  {
    seq(|ts|, i requires 0 <= i < |ts| =>
      if ts[i].id == id then ts[i].(course := course, description := description, dueDate := Some(due)) else ts[i])
  }

  /** Editing changes only the tasks with that id, and only their course,
      description and due date; completion and archiving are kept. */
  lemma EditOnlyThatTask(ts: seq<Task>, id: string, course: string, description: string, due: int)
    ensures var r := EditedTasks(ts, id, course, description, due);
            (forall i :: 0 <= i < |ts| && ts[i].id != id ==> r[i] == ts[i])
            && (forall i :: 0 <= i < |ts| && ts[i].id == id ==>
                  r[i].id == id && r[i].course == course && r[i].description == description
                  && r[i].dueDate == Some(due) && r[i].completed == ts[i].completed
                  && r[i].archived == ts[i].archived && r[i].completedAt == ts[i].completedAt)
  {
  }

  /** A new task: open, not archived, never completed. */
  function NewTask(id: string, course: string, description: string, due: int): (t: Task)
    ensures !t.completed && !t.archived && t.completedAt == None && t.dueDate == Some(due)
  {
    Task(id, course, description, Some(due), false, false, None)
  }

  class TaskFormComponent {
    const service: ScheduleService
    /** The `@Input() task` being edited, if any. */
    const task: Option<Task>
    var course: string
    var description: string
    var selectedDate: Option<int>

    constructor(service: ScheduleService, task: Option<Task>)
      ensures this.service == service && this.task == task
      ensures course == "" && description == "" && selectedDate == None
    {
      this.service := service;
      this.task := task;
      course := "";
      description := "";
      selectedDate := None;
    }

    /** `ngOnInit`: load the edited task into the form, or clear it. */
    method OnInit()
      modifies this
      ensures task.Some? ==> course == task.value.course && description == task.value.description
                             && selectedDate == task.value.dueDate
      ensures task.None? ==> course == "" && description == "" && selectedDate == None
    {
      if task.Some? {
        course := task.value.course;
        description := task.value.description;
        if task.value.dueDate.Some? {
          selectedDate := task.value.dueDate;
        } else {
          selectedDate := None;
        }
      } else {
        course := "";
        description := "";
        selectedDate := None;
      }
    }

    /** `onCourseChange`: another course invalidates the chosen date. */
    method OnCourseChange()
      modifies this
      ensures selectedDate == None
      ensures course == old(course) && description == old(description)
    {
      selectedDate := None;
    }

    method OnDateSelected(date: Option<int>)
      modifies this
      ensures selectedDate == date
      ensures course == old(course) && description == old(description)
    {
      selectedDate := date;
    }

    /** `insertMaterial(material)` with the cursor at `cursor`: the word the
        cursor ends is replaced by the material's name and a space; the text
        after the cursor is kept verbatim. Returns the new cursor position,
        just after that space. */
    method InsertMaterial(material: Material, cursor: nat) returns (newCursor: nat)
      modifies this
      ensures var cut := if cursor <= |old(description)| then cursor else |old(description)|;
              var before := old(description)[..cut];
              var kept := Spaced(before[..WordStart(before)], Whitespace) + material.name;
              description == kept + " " + old(description)[cut..]
              && newCursor == |kept| + 1
      ensures course == old(course) && selectedDate == old(selectedDate)
    {
      var cut := if cursor <= |description| then cursor else |description|;
      var textBeforeCursor := description[..cut];
      var textAfterCursor := description[cut..];
      var words := Split(textBeforeCursor, Whitespace);
      var lastWord := words[|words| - 1];
      words := words[..|words| - 1];
      var newTextBeforeCursor := Join(words, " ") + (if |words| > 0 then " " else "") + material.name;
      KeptBeforeWord(textBeforeCursor);
      description := newTextBeforeCursor + " " + textAfterCursor;
      newCursor := |newTextBeforeCursor| + 1;
    }

    /** `onSubmit(newId)`, with `newId` standing for `crypto.randomUUID()`. */
    method OnSubmit(newId: string)
      modifies this, service
      ensures old(course) == "" || old(description) == "" || old(selectedDate).None? ==>
                service.tasks == old(service.tasks)
                && course == old(course) && description == old(description) && selectedDate == old(selectedDate)
      ensures old(course) != "" && old(description) != "" && old(selectedDate).Some? && task.Some? ==>
                service.tasks == EditedTasks(old(service.tasks), task.value.id, old(course), old(description), old(selectedDate).value)
                && course == old(course) && description == old(description) && selectedDate == old(selectedDate)
      ensures old(course) != "" && old(description) != "" && old(selectedDate).Some? && task.None? ==>
                service.tasks == old(service.tasks) + [NewTask(newId, old(course), old(description), old(selectedDate).value)]
                && course == "" && description == "" && selectedDate == None
      ensures service.schedule == old(service.schedule) && service.courses == old(service.courses)
    {
      if course == "" || description == "" || selectedDate.None? {
        return;
      }
      if task.Some? {
        service.tasks := EditedTasks(service.tasks, task.value.id, course, description, selectedDate.value);
      } else {
        service.tasks := service.tasks + [NewTask(newId, course, description, selectedDate.value)];
        course := "";
        description := "";
        selectedDate := None;
      }
    }
  }
}
