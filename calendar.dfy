/** Calendar arithmetic on day numbers. A calendar date is the number of days
    since 1970-01-01 (day 0, a Thursday); an instant (`Date.getTime()`) is a
    number of milliseconds since midnight of day 0. Local time is taken to have
    no offset and no daylight-saving changes. */
module Calendar {

  const MsPerDay: int := 86400000

  /** `Date.prototype.getDay`: 0 = Sunday, 1 = Monday, ..., 6 = Saturday. */
  function Weekday(day: int): (w: int)
    ensures 0 <= w < 7
  {
    (day + 4) % 7
  }

  /** The Monday-based index `(getDay() + 6) % 7`: 0 = Monday, ..., 6 = Sunday. */
  function MondayIndex(day: int): (m: int)
    ensures 0 <= m < 7
    ensures m == 0 <==> Weekday(day) == 1
    ensures m == 6 <==> Weekday(day) == 0
    ensures 0 < Weekday(day) ==> m == Weekday(day) - 1
  {
    (Weekday(day) + 6) % 7
  }

  /** Moving k days on moves the weekday k places round the week. */
  lemma WeekdayShift(day: int, k: int)
    ensures Weekday(day + k) == (Weekday(day) + k) % 7
    ensures MondayIndex(day + k) == (MondayIndex(day) + k) % 7
  {
  }

  /** The first instant of a day: its midnight. (The factor is written out so
      that the product stays linear arithmetic.) */
  function Midnight(day: int): int
  {
    day * 86400000
  }

  /** `setHours(0, 0, 0, 0)` read as a day: the calendar day containing an instant. */
  function DayOf(t: int): (d: int)
    ensures Midnight(d) <= t < Midnight(d + 1)
  {
    t / 86400000
  }

  /** Later instants never fall on earlier days. */
  lemma DayOfMonotone(s: int, t: int)
    requires s <= t
    ensures DayOf(s) <= DayOf(t)
  {
  }

  /** The `days` table indexed by `getDay()`. */
  const DayNames: seq<string> :=
    ["Sonntag", "Montag", "Dienstag", "Mittwoch", "Donnerstag", "Freitag", "Samstag"]

  /** The timetable's `days` table, indexed Monday-based. */
  const SchoolDays: seq<string> := ["Montag", "Dienstag", "Mittwoch", "Donnerstag", "Freitag"]

  function DayName(day: int): string
  {
    DayNames[Weekday(day)]
  }

  /** The position of a day name in `DayNames`, or -1. */
  function DayNameIndex(name: string): (w: int)
    ensures -1 <= w < 7
    ensures 0 <= w ==> DayNames[w] == name
  {
    if name == "Sonntag" then 0
    else if name == "Montag" then 1
    else if name == "Dienstag" then 2
    else if name == "Mittwoch" then 3
    else if name == "Donnerstag" then 4
    else if name == "Freitag" then 5
    else if name == "Samstag" then 6
    else -1
  }

  lemma DayNameIndexOf(w: int)
    requires 0 <= w < 7
    ensures DayNameIndex(DayNames[w]) == w
    ensures ' ' !in DayNames[w]
  {
  }

  /** `SchoolDays` lists the weekday names Monday to Friday in the Monday-based order. */
  lemma SchoolDaysAreWeekdays(i: int)
    requires 0 <= i < 5
    ensures SchoolDays[i] == DayNames[i + 1]
  {
  }

  function DigitChar(d: int): char
    requires 0 <= d < 10
  {
    (48 + d) as char
  }

  /** The decimal numeral of a natural number, as template literals print it. */
  function NatToString(n: nat): (s: string)
    ensures |s| >= 1
    decreases n
  {
    if n < 10 then [DigitChar(n)] else NatToString(n / 10) + [DigitChar(n % 10)]
  }

  /** The decimal numeral of an integer (with a leading '-' when negative). */
  function IntToString(i: int): string
  {
    if i < 0 then "-" + NatToString(-i) else NatToString(i)
  }

  predicate IsNumeral(s: string)
  {
    |s| >= 1 && forall i :: 0 <= i < |s| ==> '0' <= s[i] <= '9'
  }

  /** The value of a string of decimal digits. */
  function ParseNat(s: string): nat
    requires forall i :: 0 <= i < |s| ==> '0' <= s[i] <= '9'
    decreases |s|
  {
    if s == [] then 0 else ParseNat(s[..|s| - 1]) * 10 + (s[|s| - 1] as int - 48)
  }

  /** Printing a natural number and reading it back gives the number, and the
      numeral never contains a space. */
  lemma {:induction false} NatToStringRoundTrip(n: nat)
    ensures IsNumeral(NatToString(n))
    ensures ParseNat(NatToString(n)) == n
    decreases n
  {
    if n >= 10 {
      NatToStringRoundTrip(n / 10);
      var s := NatToString(n);
      assert s[..|s| - 1] == NatToString(n / 10);
    }
  }
}
