/** The timetable page: one school day at a time (Monday to Friday), nine
    periods, and editing of single cells. A cell is identified by its day name
    and period; its content is a course name. */
module Timetable {
  import opened Base
  import opened Calendar
  import opened Models
  import opened Schedule

  /** The number of days the page pages through (`days.length`). */
  const DayCount: int := 5

  /** `getCurrentDayIndex`: the page opens on today's column, and on Friday's
      at the weekend. */
  function CurrentDayIndex(today: int): (i: int)
    ensures 0 <= i < DayCount
    ensures Weekday(today) == 0 || Weekday(today) == 6 ==> i == 4
    ensures 1 <= Weekday(today) <= 5 ==> SchoolDays[i] == DayName(today)
  {
    var dayOfWeek := Weekday(today);
    if dayOfWeek == 0 || dayOfWeek == 6 then 4 else dayOfWeek - 1
  }

  /** `previousDay`: one column back, from Monday round to Friday. */
  function PreviousIndex(i: int): (r: int)
    ensures 0 <= i < DayCount ==> 0 <= r < DayCount && r == (i + DayCount - 1) % DayCount
  {
    if i > 0 then i - 1 else DayCount - 1
  }

  /** `nextDay`: one column on, from Friday round to Monday. */
  function NextIndex(i: int): (r: int)
    ensures 0 <= i < DayCount ==> 0 <= r < DayCount && r == (i + 1) % DayCount
  {
    if i < DayCount - 1 then i + 1 else 0
  }

  /** Paging back and forth undo each other, and five steps go round the week;
      paging moves one column, wrapping from Friday to Monday and back. */
  lemma PagingInverse(i: int)
    requires 0 <= i < DayCount
    ensures i < DayCount - 1 ==> NextIndex(i) == i + 1
    ensures 0 < i ==> PreviousIndex(i) == i - 1
    ensures NextIndex(DayCount - 1) == 0 && PreviousIndex(0) == DayCount - 1
    ensures PreviousIndex(NextIndex(i)) == i
    ensures NextIndex(PreviousIndex(i)) == i
    ensures NextIndex(NextIndex(NextIndex(NextIndex(NextIndex(i))))) == i
  {
  }

  predicate At(slot: TimeSlot, day: string, period: string)
  {
    slot.day == day && slot.time == period
  }

  /** `hasClass`: some slot sits in the cell. */
  function HasClass(s: seq<TimeSlot>, day: string, period: string): (r: bool)
    ensures r <==> exists i :: 0 <= i < |s| && At(s[i], day, period)
  {
    if s == [] then false
    else
      assert forall i :: 0 < i < |s| ==> s[i] == s[1..][i - 1];
      At(s[0], day, period) || HasClass(s[1..], day, period)
  }

  /** `getClassInfo`: the course of the first slot in the cell, or "" when the
      cell is empty. */
  function GetClassInfo(s: seq<TimeSlot>, day: string, period: string): (r: string)
    ensures !HasClass(s, day, period) ==> r == ""
    ensures forall i :: 0 <= i < |s| && At(s[i], day, period) && (forall j :: 0 <= j < i ==> !At(s[j], day, period))
                        ==> r == s[i].course
  {
    if s == [] then ""
    else if At(s[0], day, period) then s[0].course
    else
      assert forall i :: 0 < i < |s| ==> s[i] == s[1..][i - 1];
      GetClassInfo(s[1..], day, period)
  }

  /** Everything outside the cell (`slot.day !== day || slot.time !== period`). */
  function NotAt(day: string, period: string): TimeSlot -> bool
  {
    slot => !At(slot, day, period)
  }

  /** The same slot with the `class` field set. */
  function WithClass(slot: TimeSlot, value: string): TimeSlot
  {
    slot.(cls := Some(value))
  }

  /** `updateSlot(day, period, value)`. An empty value clears the cell. A value
      for an empty cell appends a slot holding it. A value for an occupied cell
      writes it into the `class` field of the slots there and leaves their
      `course` as it was. */
  function UpdatedSlots(s: seq<TimeSlot>, day: string, period: string, value: string): seq<TimeSlot>
  {
    if value != "" then
      if HasClass(s, day, period) then
        seq(|s|, i requires 0 <= i < |s| => if At(s[i], day, period) then WithClass(s[i], value) else s[i])
      else s + [TimeSlot(day, period, value, None)]
    else Filter(s, NotAt(day, period))
  }

  /** Clearing a cell empties it and keeps every other slot. */
  lemma ClearCell(s: seq<TimeSlot>, day: string, period: string)
    ensures !HasClass(UpdatedSlots(s, day, period, ""), day, period)
    ensures forall x :: x in UpdatedSlots(s, day, period, "") <==> x in s && !At(x, day, period)
  {
    var r := UpdatedSlots(s, day, period, "");
    assert forall i :: 0 <= i < |r| ==> NotAt(day, period)(r[i]);
  }

  /** Filling an empty cell makes it show the value. */
  lemma FillEmptyCell(s: seq<TimeSlot>, day: string, period: string, value: string)
    requires value != "" && !HasClass(s, day, period)
    ensures |UpdatedSlots(s, day, period, value)| == |s| + 1
    ensures GetClassInfo(UpdatedSlots(s, day, period, value), day, period) == value
  {
    var r := UpdatedSlots(s, day, period, value);
    assert At(r[|s|], day, period);
  }

  /** The first slot in a cell, when there is one. */
  lemma FirstAt(s: seq<TimeSlot>, day: string, period: string) returns (k: int)
    requires HasClass(s, day, period)
    ensures 0 <= k < |s| && At(s[k], day, period)
    ensures forall j :: 0 <= j < k ==> !At(s[j], day, period)
  {
    k := 0;
    while !At(s[k], day, period)
      invariant 0 <= k < |s|
      invariant forall j :: 0 <= j < k ==> !At(s[j], day, period)
      invariant exists i :: k <= i < |s| && At(s[i], day, period)
      decreases |s| - k
    {
      k := k + 1;
    }
  }

  /** Writing into an occupied cell changes no slot's course, so the cell still
      shows what it showed before (the value lands only in `class`). */
  lemma OverwriteCell(s: seq<TimeSlot>, day: string, period: string, value: string)
    requires value != "" && HasClass(s, day, period)
    ensures |UpdatedSlots(s, day, period, value)| == |s|
    ensures forall i :: 0 <= i < |s| ==> UpdatedSlots(s, day, period, value)[i].course == s[i].course
    ensures forall i :: 0 <= i < |s| && At(s[i], day, period) ==> UpdatedSlots(s, day, period, value)[i].cls == Some(value)
    ensures GetClassInfo(UpdatedSlots(s, day, period, value), day, period) == GetClassInfo(s, day, period)
  {
    var r := UpdatedSlots(s, day, period, value);
    var k := FirstAt(s, day, period);
    assert At(r[k], day, period);
    assert forall j :: 0 <= j < k ==> !At(r[j], day, period);
  }

  /** As written, choosing "Deutsch" for a cell that shows "Mathe" leaves it
      showing "Mathe". */
  lemma OverwriteIgnored()
    ensures var s := [TimeSlot("Montag", "1", "Mathe", None)];
            GetClassInfo(UpdatedSlots(s, "Montag", "1", "Deutsch"), "Montag", "1") == "Mathe"
  {
    var s := [TimeSlot("Montag", "1", "Mathe", None)];
    assert At(s[0], "Montag", "1");
    OverwriteCell(s, "Montag", "1", "Deutsch");
  }

  /** `updateSlot` as evidently intended: an occupied cell takes the chosen
      course in its `course` field. */
  function IntendedSlots(s: seq<TimeSlot>, day: string, period: string, value: string): seq<TimeSlot>
  {
    if value != "" then
      if HasClass(s, day, period) then
        seq(|s|, i requires 0 <= i < |s| => if At(s[i], day, period) then s[i].(course := value) else s[i])
      else s + [TimeSlot(day, period, value, None)]
    else Filter(s, NotAt(day, period))
  }

  /** With the intended update the cell shows exactly the chosen value, an
      empty value leaving it empty. */
  lemma IntendedShowsValue(s: seq<TimeSlot>, day: string, period: string, value: string)
    ensures GetClassInfo(IntendedSlots(s, day, period, value), day, period) == value
    ensures HasClass(IntendedSlots(s, day, period, value), day, period) <==> value != ""
  {
    var r := IntendedSlots(s, day, period, value);
    if value == "" {
      ClearCell(s, day, period);
    } else if HasClass(s, day, period) {
      var k := FirstAt(s, day, period);
      assert At(r[k], day, period);
      assert forall j :: 0 <= j < k ==> !At(r[j], day, period);
    } else {
      FillEmptyCell(s, day, period, value);
    }
  }

  /** Two timetables that agree, slot by slot, on which slots sit in a cell and
      on their courses show the same thing in that cell. */
  lemma {:induction false} SameCell(s: seq<TimeSlot>, r: seq<TimeSlot>, day: string, period: string)
    requires |s| == |r|
    requires forall i :: 0 <= i < |s| ==> (At(s[i], day, period) <==> At(r[i], day, period))
    requires forall i :: 0 <= i < |s| && At(s[i], day, period) ==> s[i].course == r[i].course
    ensures HasClass(r, day, period) == HasClass(s, day, period)
    ensures GetClassInfo(r, day, period) == GetClassInfo(s, day, period)
    decreases |s|
  {
    if s != [] {
      SameCell(s[1..], r[1..], day, period);
    }
  }

  /** Removing slots outside a cell does not change what the cell shows. */
  lemma {:induction false} FilterOtherCell(s: seq<TimeSlot>, day: string, period: string, d: string, p: string)
    requires !(d == day && p == period)
    ensures HasClass(Filter(s, NotAt(day, period)), d, p) == HasClass(s, d, p)
    ensures GetClassInfo(Filter(s, NotAt(day, period)), d, p) == GetClassInfo(s, d, p)
    decreases |s|
  {
    if s != [] {
      FilterOtherCell(s[1..], day, period, d, p);
      var q := NotAt(day, period);
      var rest := Filter(s[1..], q);
      if q(s[0]) {
        var f := [s[0]] + rest;
        assert Filter(s, q) == f;
        assert f[1..] == rest;
        assert HasClass(f, d, p) == (At(s[0], d, p) || HasClass(rest, d, p));
        assert GetClassInfo(f, d, p) == if At(s[0], d, p) then s[0].course else GetClassInfo(rest, d, p);
      } else {
        assert Filter(s, q) == rest;
        assert !At(s[0], d, p);
      }
    }
  }

  /** A slot appended outside a cell does not change what the cell shows. */
  lemma {:induction false} AppendOtherCell(s: seq<TimeSlot>, x: TimeSlot, d: string, p: string)
    requires !At(x, d, p)
    ensures HasClass(s + [x], d, p) == HasClass(s, d, p)
    ensures GetClassInfo(s + [x], d, p) == GetClassInfo(s, d, p)
    decreases |s|
  {
    if s != [] {
      AppendOtherCell(s[1..], x, d, p);
      assert (s + [x])[1..] == s[1..] + [x];
    }
  }

  /** Editing one cell leaves every other cell as it was. */
  lemma OtherCellsUnchanged(s: seq<TimeSlot>, day: string, period: string, value: string, d: string, p: string)
    requires !(d == day && p == period)
    ensures HasClass(UpdatedSlots(s, day, period, value), d, p) == HasClass(s, d, p)
    ensures GetClassInfo(UpdatedSlots(s, day, period, value), d, p) == GetClassInfo(s, d, p)
  {
    if value == "" {
      FilterOtherCell(s, day, period, d, p);
    } else if HasClass(s, day, period) {
      SameCell(s, UpdatedSlots(s, day, period, value), d, p);
    } else {
      AppendOtherCell(s, TimeSlot(day, period, value, None), d, p);
    }
  }

  /** No two slots share a cell. */
  predicate UniqueCells(s: seq<TimeSlot>)
  {
    forall i, j :: 0 <= i < j < |s| ==> !At(s[j], s[i].day, s[i].time)
  }

  lemma {:induction false} FilterUniqueCells(s: seq<TimeSlot>, day: string, period: string)
    requires UniqueCells(s)
    ensures UniqueCells(Filter(s, NotAt(day, period)))
    decreases |s|
  {
    if s != [] {
      FilterUniqueCells(s[1..], day, period);
      var rest := Filter(s[1..], NotAt(day, period));
      if NotAt(day, period)(s[0]) {
        forall j | 0 <= j < |rest|
          ensures !At(rest[j], s[0].day, s[0].time)
        {
          assert rest[j] in s[1..];
        }
        assert Filter(s, NotAt(day, period)) == [s[0]] + rest;
      }
    }
  }

  /** Editing a cell never puts a second slot into any cell. */
  lemma UpdateKeepsCellsUnique(s: seq<TimeSlot>, day: string, period: string, value: string)
    requires UniqueCells(s)
    ensures UniqueCells(UpdatedSlots(s, day, period, value))
  {
    if value == "" {
      FilterUniqueCells(s, day, period);
    }
  }

  // ---------------------------------------------------------------------------
  // The page

  class TimetableComponent {
    const service: ScheduleService
    var currentDayIndex: int
    var editingDay: Option<string>

    predicate Valid()
      reads this
    {
      0 <= currentDayIndex < DayCount
    }

    constructor(service: ScheduleService, today: int)
      ensures this.service == service
      ensures currentDayIndex == CurrentDayIndex(today) && editingDay == None
      ensures Valid()
    {
      this.service := service;
      currentDayIndex := CurrentDayIndex(today);
      editingDay := None;
    }

    method PreviousDay()
      requires Valid()
      modifies this
      ensures Valid()
      ensures currentDayIndex == PreviousIndex(old(currentDayIndex)) && editingDay == old(editingDay)
    {
      currentDayIndex := PreviousIndex(currentDayIndex);
    }

    method NextDay()
      requires Valid()
      modifies this
      ensures Valid()
      ensures currentDayIndex == NextIndex(old(currentDayIndex)) && editingDay == old(editingDay)
    {
      currentDayIndex := NextIndex(currentDayIndex);
    }

    /** `toggleDayEdit`: start editing a day, or stop when it is being edited. */
    method ToggleDayEdit(day: string)
      modifies this
      ensures editingDay == Toggle(old(editingDay), day) && currentDayIndex == old(currentDayIndex)
    {
      editingDay := Toggle(editingDay, day);
    }

    method UpdateSlot(day: string, period: string, value: string)
      modifies service
      ensures service.schedule == UpdatedSlots(old(service.schedule), day, period, value)
      ensures service.tasks == old(service.tasks) && service.courses == old(service.courses)
    {
      service.schedule := UpdatedSlots(service.schedule, day, period, value);
    }
  }
}
