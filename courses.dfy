/** The courses page: the catalogue of courses and their materials. Courses
    are added and renamed from text inputs (trimmed, ignored when blank), and
    a course that the timetable still uses cannot be removed. */
module Courses {
  import opened Base
  import opened Text
  import opened Models
  import opened Schedule

  /** `courses.map(c => c.id === courseId ? f(c) : c)`. */
  function UpdateCourse(cs: seq<Course>, id: string, f: Course -> Course): (r: seq<Course>)
    ensures |r| == |cs|
    ensures forall i :: 0 <= i < |cs| ==> r[i] == if cs[i].id == id then f(cs[i]) else cs[i]
  {
    seq(|cs|, i requires 0 <= i < |cs| => if cs[i].id == id then f(cs[i]) else cs[i])
  }

  /** `courses.find(c => c.id === courseId)`. */
  function FindCourse(cs: seq<Course>, id: string): (r: Option<Course>)
    ensures r.None? <==> forall i :: 0 <= i < |cs| ==> cs[i].id != id
    ensures r.Some? ==>
              exists i :: 0 <= i < |cs| && cs[i] == r.value && cs[i].id == id && forall j :: 0 <= j < i ==> cs[j].id != id
  {
    if cs == [] then None
    else if cs[0].id == id then Some(cs[0])
    else
      var r := FindCourse(cs[1..], id);
      assert forall i :: 0 < i < |cs| ==> cs[i] == cs[1..][i - 1];
      if r.Some? then
        var k :| 0 <= k < |cs[1..]| && cs[1..][k] == r.value && cs[1..][k].id == id
                 && forall j :: 0 <= j < k ==> cs[1..][j].id != id;
        assert cs[k + 1] == r.value;
        r
      else r
  }

  // ---------------------------------------------------------------------------
  // addCourse

  /** The course list after `addCourse` with the text `input` and the fresh id
      `id`. */
  function CoursesAfterAdd(cs: seq<Course>, input: string, id: string): seq<Course>
  {
    if Trim(input, Whitespace) == "" then cs else cs + [Course(id, Trim(input, Whitespace), None, [])]
  }

  /** An all-whitespace name adds nothing; any other name adds exactly one
      course, at the end, named by the input without its surrounding
      whitespace and with no materials. */
  lemma AddCourseEffect(cs: seq<Course>, input: string, id: string)
    ensures (forall i :: 0 <= i < |input| ==> IsWhitespace(input[i])) ==> CoursesAfterAdd(cs, input, id) == cs
    ensures (exists i :: 0 <= i < |input| && !IsWhitespace(input[i])) ==>
              var r := CoursesAfterAdd(cs, input, id);
              |r| == |cs| + 1 && r[..|cs|] == cs && r[|cs|].id == id && r[|cs|].materials == []
              && r[|cs|].name == Trim(input, Whitespace) && r[|cs|].color == None
              && r[|cs|].name != "" && !IsWhitespace(r[|cs|].name[0])
              && !IsWhitespace(r[|cs|].name[|r[|cs|].name| - 1])
  {
    TrimBlank(input, Whitespace);
    if exists i :: 0 <= i < |input| && !IsWhitespace(input[i]) {
      var r := CoursesAfterAdd(cs, input, id);
      assert r[..|cs|] == cs;
    }
  }

  // ---------------------------------------------------------------------------
  // removeCourse

  /** Whether some slot names the course with that id (`isUsed`). With no such
      course, `courseObj?.name` is `undefined`, which no slot's course equals. */
  predicate IsUsed(schedule: seq<TimeSlot>, cs: seq<Course>, id: string)
  {
    var c := FindCourse(cs, id);
    c.Some? && exists i :: 0 <= i < |schedule| && schedule[i].course == c.value.name
  }

  /** Position `j` holds the first course with that id. */
  predicate FirstWithId(cs: seq<Course>, id: string, j: int)
  {
    0 <= j < |cs| && cs[j].id == id && forall k :: 0 <= k < j ==> cs[k].id != id
  }

  /** A course is in use exactly when some slot carries the name of the first
      course with that id; an id no course has is never in use. */
  lemma IsUsedSpec(schedule: seq<TimeSlot>, cs: seq<Course>, id: string)
    ensures IsUsed(schedule, cs, id) <==>
              exists j, i :: FirstWithId(cs, id, j) && 0 <= i < |schedule| && schedule[i].course == cs[j].name
    ensures (forall j :: 0 <= j < |cs| ==> cs[j].id != id) ==> !IsUsed(schedule, cs, id)
  {
    var c := FindCourse(cs, id);
    if c.Some? {
      var k :| 0 <= k < |cs| && cs[k] == c.value && cs[k].id == id && forall j :: 0 <= j < k ==> cs[j].id != id;
      assert FirstWithId(cs, id, k);
      forall j | FirstWithId(cs, id, j)
        ensures j == k
      {
      }
    }
  }

  function IdIsNot(id: string): Course -> bool
  {
    (c: Course) => c.id != id
  }

  /** The course list after `removeCourse(id)`. */
  function CoursesAfterRemove(cs: seq<Course>, schedule: seq<TimeSlot>, id: string): seq<Course>
  {
    if IsUsed(schedule, cs, id) then cs else Filter(cs, IdIsNot(id))
  }

  /** A course in use stays; otherwise every course with that id goes and
      every other course stays. */
  lemma RemoveCourseEffect(cs: seq<Course>, schedule: seq<TimeSlot>, id: string)
    ensures IsUsed(schedule, cs, id) ==> CoursesAfterRemove(cs, schedule, id) == cs
    ensures !IsUsed(schedule, cs, id) ==>
              (forall c :: c in CoursesAfterRemove(cs, schedule, id) <==> c in cs && c.id != id)
  {
  }

  // ---------------------------------------------------------------------------
  // updateCourseName

  function Renamed(name: string): Course -> Course
  {
    (c: Course) => c.(name := name)
  }

  /** `schedule.map(slot => slot.course === oldName ? {...slot, course: newName} : slot)`. */
  function RenameInSchedule(schedule: seq<TimeSlot>, oldName: string, newName: string): (r: seq<TimeSlot>)
    ensures |r| == |schedule|
    ensures forall i :: 0 <= i < |schedule| ==>
              r[i].course == (if schedule[i].course == oldName then newName else schedule[i].course)
    ensures forall i :: 0 <= i < |schedule| ==> r[i].(course := schedule[i].course) == schedule[i]
  {
    seq(|schedule|, i requires 0 <= i < |schedule| =>
      if schedule[i].course == oldName then schedule[i].(course := newName) else schedule[i])
  }

  /** Renaming slots from a name to itself changes nothing. */
  lemma RenameToSelf(schedule: seq<TimeSlot>, name: string)
    ensures RenameInSchedule(schedule, name, name) == schedule
  {
  }

  /** After `updateCourseName(id, input)`: only the courses with that id change,
      and only in their name, which becomes the trimmed input; a blank input
      changes nothing. */
  lemma RenameCourseEffect(cs: seq<Course>, id: string, input: string)
    ensures var r := UpdateCourse(cs, id, Renamed(Trim(input, Whitespace)));
            |r| == |cs|
            && (forall i :: 0 <= i < |cs| && cs[i].id != id ==> r[i] == cs[i])
            && (forall i :: 0 <= i < |cs| && cs[i].id == id ==> r[i].name == Trim(input, Whitespace) && r[i].(name := cs[i].name) == cs[i])
  {
  }

  /** Renaming the courses with an id renames the first of them as found. */
  lemma {:induction false} FindRenamed(cs: seq<Course>, id: string, newName: string)
    ensures FindCourse(UpdateCourse(cs, id, Renamed(newName)), id)
            == if FindCourse(cs, id).Some? then Some(FindCourse(cs, id).value.(name := newName)) else None
  {
    if cs != [] && cs[0].id != id {
      var r := UpdateCourse(cs, id, Renamed(newName));
      assert r[1..] == UpdateCourse(cs[1..], id, Renamed(newName));
      FindRenamed(cs[1..], id, newName);
    }
  }

  /** As written, renaming a course that the timetable uses leaves its slots on
      the old name, so the course is no longer in use and can be removed. */
  lemma RenameOrphansSlots()
    ensures var cs := [Course("c1", "Mathe", None, [])];
            var schedule := [TimeSlot("Montag", "1", "Mathe", None)];
            IsUsed(schedule, cs, "c1")
            && !IsUsed(schedule, UpdateCourse(cs, "c1", Renamed("Mathematik")), "c1")
  {
    var cs := [Course("c1", "Mathe", None, [])];
    var schedule := [TimeSlot("Montag", "1", "Mathe", None)];
    FindRenamed(cs, "c1", "Mathematik");
    assert schedule[0].course == "Mathe";
  }

  /** The timetable after renaming as evidently intended: the course's name is
      looked up before the rename, and its slots follow it to the new name. */
  function RenamedSchedule(schedule: seq<TimeSlot>, cs: seq<Course>, id: string, newName: string): seq<TimeSlot>
  {
    var oldName := FindCourse(cs, id);
    if oldName.Some? && oldName.value.name != "" then RenameInSchedule(schedule, oldName.value.name, newName)
    else schedule
  }

  /** With the intended order, a course in use stays in use under its new name,
      and no slot is left on the old name. */
  lemma RenameKeepsUse(schedule: seq<TimeSlot>, cs: seq<Course>, id: string, newName: string)
    requires newName != ""
    requires FindCourse(cs, id).Some? && FindCourse(cs, id).value.name != ""
    ensures var r := RenamedSchedule(schedule, cs, id, newName);
            (IsUsed(schedule, cs, id) ==> IsUsed(r, UpdateCourse(cs, id, Renamed(newName)), id))
            && forall i :: 0 <= i < |r| ==> r[i].course != FindCourse(cs, id).value.name || newName == FindCourse(cs, id).value.name
  {
    FindRenamed(cs, id, newName);
    var r := RenamedSchedule(schedule, cs, id, newName);
    if IsUsed(schedule, cs, id) {
      var i :| 0 <= i < |schedule| && schedule[i].course == FindCourse(cs, id).value.name;
      assert r[i].course == newName;
    }
  }

  // ---------------------------------------------------------------------------
  // addMaterial / removeMaterial

  function WithMaterial(m: Material): Course -> Course
  {
    (c: Course) => c.(materials := c.materials + [m])
  }

  function MaterialIdIsNot(id: string): Material -> bool
  {
    (m: Material) => m.id != id
  }

  function WithoutMaterial(materialId: string): Course -> Course
  {
    (c: Course) => c.(materials := Filter(c.materials, MaterialIdIsNot(materialId)))
  }

  /** `addMaterial` appends the material to the courses with that id, as their
      last material, and touches nothing else. */
  lemma AddMaterialEffect(cs: seq<Course>, id: string, m: Material)
    ensures var r := UpdateCourse(cs, id, WithMaterial(m));
            |r| == |cs|
            && (forall i :: 0 <= i < |cs| && cs[i].id != id ==> r[i] == cs[i])
            && (forall i :: 0 <= i < |cs| && cs[i].id == id ==>
                  r[i].materials[..|cs[i].materials|] == cs[i].materials
                  && r[i].materials[|cs[i].materials|..] == [m]
                  && r[i].(materials := cs[i].materials) == cs[i])
  {
  }

  /** `removeMaterial` drops exactly the materials with that id from the courses
      with the given id and touches nothing else. */
  lemma RemoveMaterialEffect(cs: seq<Course>, id: string, materialId: string)
    ensures var r := UpdateCourse(cs, id, WithoutMaterial(materialId));
            |r| == |cs|
            && (forall i :: 0 <= i < |cs| && cs[i].id != id ==> r[i] == cs[i])
            && (forall i :: 0 <= i < |cs| && cs[i].id == id ==>
                  (forall m :: m in r[i].materials <==> m in cs[i].materials && m.id != materialId)
                  && r[i].(materials := cs[i].materials) == cs[i])
  {
  }

  // ---------------------------------------------------------------------------
  // The page

  class CoursesComponent {
    const service: ScheduleService
    var newCourseName: string
    var newMaterialName: map<string, string>
    var newMaterialType: map<string, string>
    var editingCourseId: Option<string>

    constructor(service: ScheduleService)
      ensures this.service == service
      ensures newCourseName == "" && newMaterialName == map[] && newMaterialType == map[]
      ensures editingCourseId == None
    {
      this.service := service;
      newCourseName := "";
      newMaterialName := map[];
      newMaterialType := map[];
      editingCourseId := None;
    }

    /** `addCourse`, with `id` standing for `crypto.randomUUID()`. */
    method AddCourse(id: string)
      modifies this, service
      ensures service.courses == CoursesAfterAdd(old(service.courses), old(newCourseName), id)
      ensures newCourseName == if Trim(old(newCourseName), Whitespace) == "" then old(newCourseName) else ""
      ensures service.schedule == old(service.schedule) && service.tasks == old(service.tasks)
      ensures newMaterialName == old(newMaterialName) && newMaterialType == old(newMaterialType)
      ensures editingCourseId == old(editingCourseId)
    {
      if Trim(newCourseName, Whitespace) == "" {
        return;
      }
      var newCourse := Course(id, Trim(newCourseName, Whitespace), None, []);
      service.courses := service.courses + [newCourse];
      newCourseName := "";
    }

    method RemoveCourse(courseId: string)
      modifies service
      ensures service.courses == CoursesAfterRemove(old(service.courses), old(service.schedule), courseId)
      ensures service.schedule == old(service.schedule) && service.tasks == old(service.tasks)
    {
      var isUsed := IsUsed(service.schedule, service.courses, courseId);
      if isUsed {
        return;
      }
      service.courses := Filter(service.courses, IdIsNot(courseId));
    }

    /** `updateCourseName(courseId, input)`. The course is renamed first and its
        name looked up afterwards, so the pass over the timetable replaces the
        new name by itself: the timetable keeps slots naming the old name. */
    method UpdateCourseName(courseId: string, input: string)
      modifies service
      ensures service.courses == if Trim(input, Whitespace) == "" then old(service.courses)
                                 else UpdateCourse(old(service.courses), courseId, Renamed(Trim(input, Whitespace)))
      ensures service.schedule == old(service.schedule)
      ensures service.tasks == old(service.tasks)
    {
      var newName := Trim(input, Whitespace);
      if newName == "" {
        return;
      }
      service.courses := UpdateCourse(service.courses, courseId, Renamed(newName));
      var oldName := FindCourse(service.courses, courseId);
      if oldName.Some? && oldName.value.name != "" {
        RenameToSelf(service.schedule, newName);
        service.schedule := RenameInSchedule(service.schedule, oldName.value.name, newName);
      }
    }

    /** `addMaterial(courseId)`, with `id` standing for `crypto.randomUUID()`;
        the type defaults to 'other'. */
    method AddMaterial(courseId: string, id: string)
      modifies this, service
      ensures courseId !in old(newMaterialName) || Trim(old(newMaterialName)[courseId], Whitespace) == "" ==>
                service.courses == old(service.courses) && newMaterialName == old(newMaterialName)
      ensures courseId in old(newMaterialName) && Trim(old(newMaterialName)[courseId], Whitespace) != "" ==>
                var kind := if courseId in old(newMaterialType) && old(newMaterialType)[courseId] != ""
                            then old(newMaterialType)[courseId] else "other";
                service.courses == UpdateCourse(old(service.courses), courseId,
                                                WithMaterial(Material(id, Trim(old(newMaterialName)[courseId], Whitespace), kind)))
                && newMaterialName == old(newMaterialName)[courseId := ""]
      ensures service.schedule == old(service.schedule) && service.tasks == old(service.tasks)
      ensures newCourseName == old(newCourseName) && newMaterialType == old(newMaterialType)
      ensures editingCourseId == old(editingCourseId)
    {
      if courseId !in newMaterialName || Trim(newMaterialName[courseId], Whitespace) == "" {
        return;
      }
      var kind := if courseId in newMaterialType && newMaterialType[courseId] != "" then newMaterialType[courseId] else "other";
      var newMaterial := Material(id, Trim(newMaterialName[courseId], Whitespace), kind);
      service.courses := UpdateCourse(service.courses, courseId, WithMaterial(newMaterial));
      newMaterialName := newMaterialName[courseId := ""];
    }

    method RemoveMaterial(courseId: string, materialId: string)
      modifies service
      ensures service.courses == UpdateCourse(old(service.courses), courseId, WithoutMaterial(materialId))
      ensures service.schedule == old(service.schedule) && service.tasks == old(service.tasks)
    {
      service.courses := UpdateCourse(service.courses, courseId, WithoutMaterial(materialId));
    }

    /** `toggleEdit`: open a course for editing, or close it when it is open. */
    method ToggleEdit(courseId: string)
      modifies this
      ensures editingCourseId == Toggle(old(editingCourseId), courseId)
      ensures newCourseName == old(newCourseName) && newMaterialName == old(newMaterialName)
      ensures newMaterialType == old(newMaterialType)
    {
      editingCourseId := Toggle(editingCourseId, courseId);
    }
  }
}
