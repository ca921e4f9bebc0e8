/** The due-date selector of the task form: it offers the next days on which
    the chosen course is taught (at most six, within the coming weeks), labels
    them relative to today, and emits the chosen date. */
module DueDateSelector {
  import opened Base
  import opened Calendar
  import opened Labels
  import opened Models

  // ---------------------------------------------------------------------------
  // formatDate

  /** The Monday of the week containing `today` (Monday-based weeks). */
  function WeekMonday(today: int): (m: int)
    ensures m <= today < m + 7
    ensures Weekday(m) == 1
  {
    WeekdayShift(today, -MondayIndex(today));
    today - MondayIndex(today)
  }

  /** `formatDate` for a day `date` (a midnight, as every date this component
      formats is) seen from the day `today`. */
  function FormatDate(date: int, today: int): (r: Label)
    ensures date == today + 1 <==> r == Word("Morgen")
    ensures date == today - 1 <==> r == Word("Gestern")
    ensures date == today <==> r == Word("Heute")
    ensures date < today - 1 <==> r == LongDate(date)
    ensures r.Word? <==> date >= today - 1
  {
    if date == today + 1 then Word("Morgen")
    else if date == today - 1 then Word("Gestern")
    else if date == today then Word("Heute")
    else if date < today then LongDate(date)
    else
      WeekLabelIsLong(date, WeekMonday(today));
      Word(WeekLabel(date, WeekMonday(today)))
  }

  /** Any later date is labelled by a week-relative phrase that reads back, from
      this week's Monday, as that date. */
  lemma FormatFutureDate(date: int, today: int)
    requires date > today + 1
    ensures FormatDate(date, today) == Word(WeekLabel(date, WeekMonday(today)))
    ensures ParseWeekLabel(FormatDate(date, today).text, WeekMonday(today)) == Some(date)
  {
    WeekLabelRoundTrip(date, WeekMonday(today));
  }

  /** Seen from one day, different dates get different labels. */
  lemma FormatDateInjective(a: int, b: int, today: int)
    requires FormatDate(a, today) == FormatDate(b, today)
    ensures a == b
  {
    if a > today + 1 && b > today + 1 {
      WeekLabelInjective(a, b, WeekMonday(today));
    }
  }

  // ---------------------------------------------------------------------------
  // getNextOccurrences

  /** `courseSlots`: the Monday-based index in `SchoolDays` of each slot of the
      course, -1 for a slot whose day is not a school day. */
  function SlotDays(schedule: seq<TimeSlot>, courseName: string): (r: seq<int>)
    ensures forall w :: w in r ==> -1 <= w < |SchoolDays|
    decreases |schedule|
  {
    if schedule == [] then []
    else
      var rest := SlotDays(schedule[1..], courseName);
      if schedule[0].course == courseName then [IndexOf(SchoolDays, schedule[0].day)] + rest else rest
  }

  /** The course has a slot on the school day with Monday-based index `w`. */
  predicate HasSlotOn(schedule: seq<TimeSlot>, courseName: string, w: int)
  {
    0 <= w < |SchoolDays|
    && exists k :: 0 <= k < |schedule| && schedule[k].course == courseName && schedule[k].day == SchoolDays[w]
  }

  /** Looking a day name up in `SchoolDays` gives `w` exactly for the `w`-th
      school day. */
  lemma SchoolDayIndex(day: string, w: int)
    requires 0 <= w < |SchoolDays|
    ensures IndexOf(SchoolDays, day) == w <==> day == SchoolDays[w]
  {
  }

  /** A slot on day `w` is the first slot or one of the others. */
  lemma HasSlotOnCons(schedule: seq<TimeSlot>, courseName: string, w: int)
    requires schedule != [] && 0 <= w < |SchoolDays|
    ensures HasSlotOn(schedule, courseName, w)
            <==> (schedule[0].course == courseName && schedule[0].day == SchoolDays[w])
                 || HasSlotOn(schedule[1..], courseName, w)
  {
    var rest := schedule[1..];
    if HasSlotOn(rest, courseName, w) {
      var k :| 0 <= k < |rest| && rest[k].course == courseName && rest[k].day == SchoolDays[w];
      assert schedule[k + 1] == rest[k];
    }
    if HasSlotOn(schedule, courseName, w) {
      var k :| 0 <= k < |schedule| && schedule[k].course == courseName && schedule[k].day == SchoolDays[w];
      if k > 0 {
        assert rest[k - 1] == schedule[k];
      }
    }
    if schedule[0].course == courseName && schedule[0].day == SchoolDays[w] {
      assert schedule[0].course == courseName && schedule[0].day == SchoolDays[w];
    }
  }

  /** A school day is among `courseSlots` exactly when the course has a slot
      on it. */
  lemma {:induction false} SlotDaysSpec(schedule: seq<TimeSlot>, courseName: string, w: int)
    requires 0 <= w < |SchoolDays|
    ensures w in SlotDays(schedule, courseName) <==> HasSlotOn(schedule, courseName, w)
    decreases |schedule|
  {
    if schedule != [] {
      var rest := schedule[1..];
      SlotDaysSpec(rest, courseName, w);
      var head := schedule[0].course == courseName && schedule[0].day == SchoolDays[w];
      SchoolDayIndex(schedule[0].day, w);
      var front := if schedule[0].course == courseName then [IndexOf(SchoolDays, schedule[0].day)] else [];
      assert SlotDays(schedule, courseName) == front + SlotDays(rest, courseName);
      assert w in front <==> head;
      HasSlotOnCons(schedule, courseName, w);
    }
  }

  /** The days in [lo, hi) whose Monday-based weekday index is in `slots`,
      in ascending order. */
  function Matching(slots: seq<int>, lo: int, hi: int): seq<int>
    decreases hi - lo
  {
    if hi <= lo then [] else Matching(slots, lo, hi - 1) + (if MondayIndex(hi - 1) in slots then [hi - 1] else [])
  }

  /** Exactly the matching days of the window are listed, in strictly
      ascending order. */
  lemma {:induction false} MatchingSpec(slots: seq<int>, lo: int, hi: int)
    ensures forall d :: d in Matching(slots, lo, hi) <==> lo <= d < hi && MondayIndex(d) in slots
    ensures forall i, j :: 0 <= i < j < |Matching(slots, lo, hi)| ==> Matching(slots, lo, hi)[i] < Matching(slots, lo, hi)[j]
    decreases hi - lo
  {
    if lo < hi {
      MatchingSpec(slots, lo, hi - 1);
      var p := Matching(slots, lo, hi - 1);
      forall i | 0 <= i < |p|
        ensures p[i] < hi - 1
      {
        assert p[i] in p;
      }
    }
  }

  /** A course without slots matches no day. */
  lemma {:induction false} MatchingNoSlots(slots: seq<int>, lo: int, hi: int)
    requires slots == []
    ensures Matching(slots, lo, hi) == []
    decreases hi - lo
  {
    if lo < hi {
      MatchingNoSlots(slots, lo, hi - 1);
    }
  }

  /** Scanning further only adds days at the end. */
  lemma {:induction false} MatchingPrefix(slots: seq<int>, lo: int, mid: int, hi: int)
    requires mid <= hi
    ensures |Matching(slots, lo, mid)| <= |Matching(slots, lo, hi)|
    ensures Matching(slots, lo, mid) == Matching(slots, lo, hi)[..|Matching(slots, lo, mid)|]
    decreases hi - mid
  {
    if mid < hi && lo < hi {
      MatchingPrefix(slots, lo, mid, hi - 1);
    }
  }

  /** The number of Mondays in (start, current]: `weeksCount`. */
  function MondaysAfter(start: int, current: int): nat
    decreases current - start
  {
    if current <= start then 0
    else MondaysAfter(start, current - 1) + (if Weekday(current) == 1 then 1 else 0)
  }

  /** The first Monday strictly after `start`. */
  function NextMonday(start: int): (m: int)
    ensures start < m <= start + 7 && Weekday(m) == 1
  {
    WeekdayShift(start, 7 - MondayIndex(start));
    start + 7 - MondayIndex(start)
  }

  lemma {:induction false} MondaysAfterCount(start: int, current: int)
    requires start <= current
    ensures MondaysAfter(start, current) == if current < NextMonday(start) then 0 else (current - NextMonday(start)) / 7 + 1
    decreases current - start
  {
    var f := NextMonday(start);
    if current > start {
      MondaysAfterCount(start, current - 1);
      WeekdayShift(start, current - start);
      WeekdayShift(f, current - f);
      if current > f {
        var q, r := (current - f) / 7, (current - f) % 7;
        assert current - f == 7 * q + r;
        if r == 0 {
          assert (current - 1 - f) / 7 == q - 1;
        } else {
          assert current - 1 - f == 7 * q + (r - 1);
          assert (current - 1 - f) / 7 == q;
        }
      }
    }
  }

  /** The day on which `weeksCount` reaches 3: the third Monday after `start`. */
  function ScanEnd(start: int): int
  {
    NextMonday(start) + 14
  }

  lemma ScanEndReached(start: int, current: int)
    requires start <= current
    ensures MondaysAfter(start, current) < 3 <==> current < ScanEnd(start)
  {
    MondaysAfterCount(start, current);
  }

  /** The label of the option at position `i`: the first is the next lesson. */
  function OptionLabel(i: int, date: int, today: int): Label
    requires date > today
  {
    if i == 0 then Word("Nächste Stunde (" + FormatDate(date, today).text + ")")
    else FormatDate(date, today)
  }

  function Dates(os: seq<DateOption>): (r: seq<int>)
    ensures |r| == |os| && forall i :: 0 <= i < |os| ==> r[i] == os[i].date
  {
    seq(|os|, i requires 0 <= i < |os| => os[i].date)
  }

  lemma MatchingStep(slots: seq<int>, lo: int, hi: int)
    requires lo <= hi
    ensures Matching(slots, lo, hi + 1) == Matching(slots, lo, hi) + (if MondayIndex(hi) in slots then [hi] else [])
  {
  }

  lemma DatesSnoc(os: seq<DateOption>, o: DateOption)
    ensures Dates(os + [o]) == Dates(os) + [o.date]
  {
  }

  /** The loop of `getNextOccurrences`: walks from tomorrow, one day at a time,
      collecting the days whose weekday index is in `courseSlots`, until six are
      found or the third Monday is reached. */
  method ScanOccurrences(courseSlots: seq<int>, today: int) returns (occurrences: seq<DateOption>)
    ensures Dates(occurrences) == Take(Matching(courseSlots, today + 1, ScanEnd(today + 1)), 6)
    ensures forall i :: 0 <= i < |occurrences| ==>
              occurrences[i].date > today && occurrences[i].title == OptionLabel(i, occurrences[i].date, today)
  {
    var tomorrow := today + 1;
    occurrences := [];
    var currentDate := tomorrow;
    var weeksCount := 0;
    while |occurrences| < 6 && weeksCount < 3
      invariant tomorrow <= currentDate <= ScanEnd(tomorrow)
      invariant weeksCount == MondaysAfter(tomorrow, currentDate)
      invariant |occurrences| <= 6
      invariant Dates(occurrences) == Matching(courseSlots, tomorrow, currentDate)
      invariant forall i :: 0 <= i < |occurrences| ==>
                  occurrences[i].date > today && occurrences[i].title == OptionLabel(i, occurrences[i].date, today)
      decreases ScanEnd(tomorrow) - currentDate
    {
      ScanEndReached(tomorrow, currentDate);
      MatchingStep(courseSlots, tomorrow, currentDate);
      var currentDayOfWeek := MondayIndex(currentDate);
      if currentDayOfWeek in courseSlots {
        var isNextClass := |occurrences| == 0;
        var title := if isNextClass then Word("Nächste Stunde (" + FormatDate(currentDate, today).text + ")")
                     else FormatDate(currentDate, today);
        assert title == OptionLabel(|occurrences|, currentDate, today);
        DatesSnoc(occurrences, DateOption(currentDate, title));
        occurrences := occurrences + [DateOption(currentDate, title)];
      }
      currentDate := currentDate + 1;
      if Weekday(currentDate) == 1 {
        weeksCount := weeksCount + 1;
      }
    }
    ScanEndReached(tomorrow, currentDate);
    MatchingPrefix(courseSlots, tomorrow, currentDate, ScanEnd(tomorrow));
  }

  /** `getNextOccurrences(courseName)` for the day `today`: the first six days
      from tomorrow on, before the third Monday after tomorrow, on which the
      course has a slot. */
  method NextOccurrences(schedule: seq<TimeSlot>, courseName: string, today: int) returns (r: seq<DateOption>)
    ensures courseName == "" ==> r == []
    ensures courseName != "" ==>
              Dates(r) == Take(Matching(SlotDays(schedule, courseName), today + 1, ScanEnd(today + 1)), 6)
    ensures forall i :: 0 <= i < |r| ==> r[i].date > today && r[i].title == OptionLabel(i, r[i].date, today)
  {
    if courseName == "" {
      return [];
    }
    var courseSlots := SlotDays(schedule, courseName);
    if |courseSlots| == 0 {
      MatchingNoSlots(courseSlots, today + 1, ScanEnd(today + 1));
      return [];
    }
    r := ScanOccurrences(courseSlots, today);
  }

  /** The options are at most six days, strictly ascending, all after today
      and before the end of the scan. */
  lemma OccurrencesInOrder(schedule: seq<TimeSlot>, courseName: string, today: int, ds: seq<int>)
    requires ds == Take(Matching(SlotDays(schedule, courseName), today + 1, ScanEnd(today + 1)), 6)
    ensures |ds| <= 6
    ensures forall i, j :: 0 <= i < j < |ds| ==> ds[i] < ds[j]
    ensures forall i :: 0 <= i < |ds| ==> today < ds[i] < ScanEnd(today + 1)
  {
    MatchingSpec(SlotDays(schedule, courseName), today + 1, ScanEnd(today + 1));
    var m := Matching(SlotDays(schedule, courseName), today + 1, ScanEnd(today + 1));
    assert forall i :: 0 <= i < |ds| ==> ds[i] == m[i] && m[i] in m;
  }

  /** Every option is a school day on which the course has a slot. */
  lemma OccurrencesOnCourseDays(schedule: seq<TimeSlot>, courseName: string, today: int, ds: seq<int>)
    requires ds == Take(Matching(SlotDays(schedule, courseName), today + 1, ScanEnd(today + 1)), 6)
    ensures forall i :: 0 <= i < |ds| ==> HasSlotOn(schedule, courseName, MondayIndex(ds[i]))
  {
    var slots := SlotDays(schedule, courseName);
    MatchingSpec(slots, today + 1, ScanEnd(today + 1));
    var m := Matching(slots, today + 1, ScanEnd(today + 1));
    forall i | 0 <= i < |ds|
      ensures HasSlotOn(schedule, courseName, MondayIndex(ds[i]))
    {
      assert ds[i] == m[i] && m[i] in m;
      SlotDaysSpec(schedule, courseName, MondayIndex(ds[i]));
    }
  }

  /** Taking the first `n` of an ascending sequence drops only elements
      beyond the last one taken. */
  lemma TakeAscending(m: seq<int>, n: nat, d: int)
    requires forall i, j :: 0 <= i < j < |m| ==> m[i] < m[j]
    requires d in m
    requires |Take(m, n)| < n || (Take(m, n) != [] && d < Take(m, n)[|Take(m, n)| - 1])
    ensures d in Take(m, n)
  {
    if n < |m| {
      var k :| 0 <= k < |m| && m[k] == d;
      assert 0 < n && d < m[n - 1];
      assert k < n;
      assert m[..n][k] == d;
    }
  }

  /** No school day with a slot of the course is skipped: every such day of the
      window before the last option (or, with fewer than six options, in the
      whole window) is an option. */
  lemma OccurrencesComplete(schedule: seq<TimeSlot>, courseName: string, today: int, ds: seq<int>)
    requires ds == Take(Matching(SlotDays(schedule, courseName), today + 1, ScanEnd(today + 1)), 6)
    ensures forall d ::
              (today < d < ScanEnd(today + 1) && HasSlotOn(schedule, courseName, MondayIndex(d))
               && (|ds| < 6 || d < ds[|ds| - 1]))
              ==> d in ds
  {
    var slots := SlotDays(schedule, courseName);
    MatchingSpec(slots, today + 1, ScanEnd(today + 1));
    var m := Matching(slots, today + 1, ScanEnd(today + 1));
    forall d | today < d < ScanEnd(today + 1) && HasSlotOn(schedule, courseName, MondayIndex(d))
               && (|ds| < 6 || d < ds[|ds| - 1])
      ensures d in ds
    {
      SlotDaysSpec(schedule, courseName, MondayIndex(d));
      assert d in m;
      TakeAscending(m, 6, d);
    }
  }

  // ---------------------------------------------------------------------------
  // The component

  /** What the drop-down holds: nothing ("Bitte wählen"), "Datum wählen", or
      one of the offered options. */
  datatype Selection = NoSelection | Custom | Chosen(option: DateOption)

  class DueDateSelectorComponent {
    var selectedValue: Selection
    /** The `type="date"` input's value, as the day it names; None is ''. */
    var customDate: Option<int>

    constructor()
      ensures selectedValue == NoSelection && customDate == None
    {
      selectedValue := NoSelection;
      customDate := None;
    }

    /** `onDateChange(value)` at the instant `now`; returns what
        `selectedDate` emits (an instant, or None for null). */
    method OnDateChange(value: Selection, now: int) returns (emitted: Option<int>)
      modifies this
      ensures selectedValue == value
      ensures value == Custom ==> customDate == Some(DayOf(now)) && emitted == Some(now)
      ensures value.Chosen? ==> customDate == None && emitted == Some(Midnight(value.option.date))
      ensures value == NoSelection ==> customDate == None && emitted == None
    {
      if value == Custom {
        selectedValue := Custom;
        customDate := Some(DayOf(now));
        emitted := Some(now);
      } else if value.Chosen? {
        selectedValue := value;
        customDate := None;
        emitted := Some(Midnight(value.option.date));
      } else {
        selectedValue := NoSelection;
        customDate := None;
        emitted := None;
      }
    }

    /** `onCustomDateChange(dateString)`, the input's text given as the day it
        names (None for the empty string): the midnight of that day is emitted,
        and an empty input changes and emits nothing. */
    method OnCustomDateChange(dateString: Option<int>) returns (emitted: Option<int>)
      modifies this
      ensures dateString == None ==> customDate == old(customDate) && emitted == None
      ensures dateString.Some? ==> customDate == dateString && emitted == Some(Midnight(dateString.value))
      ensures selectedValue == old(selectedValue)
    {
      emitted := None;
      if dateString.Some? {
        customDate := dateString;
        emitted := Some(Midnight(dateString.value));
      }
    }
  }
}
