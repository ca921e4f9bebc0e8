/** Date labels. The planner shows dates either as German phrases it composes
    itself ("Morgen", "Diese Woche Montag", "Freitag in 4 Wochen", ...) or
    through `Intl.DateTimeFormat('de-DE', ...)`. */
module Labels {
  import opened Base
  import opened Text
  import opened Calendar

  /** `Word` is text the planner composes. The two `Intl.DateTimeFormat`
      renderings are not spelled out: `LongDate(d)` stands for the long form
      (weekday, day, month name, year) of day `d` and `NumericDate(d)` for the
      dd.mm.yyyy form. Both are distinct for distinct days and never equal a
      composed phrase. */
  datatype Label = Word(text: string) | LongDate(day: int) | NumericDate(day: int)

  /** The week-relative phrase for `date`, counting whole weeks from the Monday
      `monday`: weekDiff = floor((date - monday) / 7), and 0, 1, 2 and anything
      else give "Diese Woche X", "Nächste Woche X", "Übernächste Woche X" and
      "X in N Wochen", X being the weekday name of `date`. */
  function WeekLabel(date: int, monday: int): string
  {
    var weekDiff := (date - monday) / 7;
    var dayName := DayName(date);
    if weekDiff == 0 then "Diese Woche " + dayName
    else if weekDiff == 1 then "Nächste Woche " + dayName
    else if weekDiff == 2 then "Übernächste Woche " + dayName
    else dayName + " in " + IntToString(weekDiff) + " Wochen"
  }

  /** The week count named by the first word of a "… Woche X" phrase, or -1. */
  function WeekWord(w: string): int
  {
    if w == "Diese" then 0 else if w == "Nächste" then 1 else if w == "Übernächste" then 2 else -1
  }

  /** The day that lies `weekDiff` weeks after the Monday `monday` and has weekday `weekday`. */
  function DateIn(monday: int, weekDiff: int, weekday: int): int
  {
    monday + 7 * weekDiff + (weekday + 6) % 7
  }

  /** Reads a week-relative phrase back into the day it names, counting from
      the Monday `monday`; None for text of any other shape. */
  function ParseWeekLabel(text: string, monday: int): Option<int>
  {
    var ws := Split(text, {' '});
    if |ws| == 3 && ws[1] == "Woche" && WeekWord(ws[0]) >= 0 && DayNameIndex(ws[2]) >= 0 then
      Some(DateIn(monday, WeekWord(ws[0]), DayNameIndex(ws[2])))
    else if |ws| == 4 && ws[1] == "in" && ws[3] == "Wochen" && DayNameIndex(ws[0]) >= 0 && IsNumeral(ws[2]) then
      Some(DateIn(monday, ParseNat(ws[2]), DayNameIndex(ws[0])))
    else None
  }

  /** The week count and the weekday name together determine the day. */
  lemma DateInRecovers(date: int, monday: int)
    requires Weekday(monday) == 1
    ensures DateIn(monday, (date - monday) / 7, Weekday(date)) == date
  {
    var w, r := (date - monday) / 7, (date - monday) % 7;
    assert date == monday + 7 * w + r;
    WeekdayShift(monday, 7 * w + r);
    assert Weekday(date) == (1 + 7 * w + r) % 7 == (1 + r) % 7;
  }

  lemma SplitWords3(a: string, b: string, c: string)
    requires HasNone(a, {' '}) && HasNone(b, {' '}) && HasNone(c, {' '})
    ensures Split(a + " " + b + " " + c, {' '}) == [a, b, c]
  {
    assert a + " " + b + " " + c == a + [' '] + (b + [' '] + c);
    SplitAt(a, ' ', b + [' '] + c, {' '});
    SplitAt(b, ' ', c, {' '});
    SplitNone(a, {' '});
    SplitNone(b, {' '});
    SplitNone(c, {' '});
  }

  lemma SplitWords4(a: string, b: string, c: string, d: string)
    requires HasNone(a, {' '}) && HasNone(b, {' '}) && HasNone(c, {' '}) && HasNone(d, {' '})
    ensures Split(a + " " + b + " " + c + " " + d, {' '}) == [a, b, c, d]
  {
    assert a + " " + b + " " + c + " " + d == a + [' '] + (b + " " + c + " " + d);
    SplitAt(a, ' ', b + " " + c + " " + d, {' '});
    SplitWords3(b, c, d);
    SplitNone(a, {' '});
  }

  lemma ParseRelativeWeek(first: string, name: string, monday: int)
    requires WeekWord(first) >= 0 && HasNone(first, {' '})
    requires DayNameIndex(name) >= 0 && HasNone(name, {' '})
    ensures ParseWeekLabel(first + " " + "Woche" + " " + name, monday)
            == Some(DateIn(monday, WeekWord(first), DayNameIndex(name)))
  {
    SplitWords3(first, "Woche", name);
  }

  lemma ParseWeeksAhead(name: string, n: nat, monday: int)
    requires DayNameIndex(name) >= 0 && HasNone(name, {' '})
    ensures ParseWeekLabel(name + " " + "in" + " " + NatToString(n) + " " + "Wochen", monday)
            == Some(DateIn(monday, n, DayNameIndex(name)))
  {
    NatToStringRoundTrip(n);
    SplitWords4(name, "in", NatToString(n), "Wochen");
  }

  /** A "… Woche X" phrase whose first word names the week of `date` and
      whose last is the weekday name of `date` reads back as `date`. */
  lemma ParseNear(first: string, date: int, monday: int)
    requires Weekday(monday) == 1 && monday <= date
    requires WeekWord(first) == (date - monday) / 7 && HasNone(first, {' '})
    ensures ParseWeekLabel(first + " Woche " + DayName(date), monday) == Some(date)
  {
    var name := DayName(date);
    DayNameIndexOf(Weekday(date));
    DateInRecovers(date, monday);
    assert first + " Woche " + name == first + " " + "Woche" + " " + name;
    ParseRelativeWeek(first, name, monday);
  }

  lemma RoundTripNear(date: int, monday: int)
    requires Weekday(monday) == 1 && monday <= date && (date - monday) / 7 <= 2
    ensures ParseWeekLabel(WeekLabel(date, monday), monday) == Some(date)
  {
    var w := (date - monday) / 7;
    if w == 0 {
      assert WeekLabel(date, monday) == "Diese" + " Woche " + DayName(date);
      ParseNear("Diese", date, monday);
    } else if w == 1 {
      assert WeekLabel(date, monday) == "Nächste" + " Woche " + DayName(date);
      ParseNear("Nächste", date, monday);
    } else {
      assert WeekLabel(date, monday) == "Übernächste" + " Woche " + DayName(date);
      ParseNear("Übernächste", date, monday);
    }
  }

  lemma RoundTripFar(date: int, monday: int)
    requires Weekday(monday) == 1 && monday <= date && (date - monday) / 7 > 2
    ensures ParseWeekLabel(WeekLabel(date, monday), monday) == Some(date)
  {
    var w := (date - monday) / 7;
    var name := DayName(date);
    DayNameIndexOf(Weekday(date));
    DateInRecovers(date, monday);
    assert WeekLabel(date, monday) == name + " " + "in" + " " + NatToString(w) + " " + "Wochen";
    ParseWeeksAhead(name, w, monday);
  }

  /** Round trip: a week-relative phrase for any day from `monday` on reads back
      as that day. So two such days with the same phrase are the same day. */
  lemma WeekLabelRoundTrip(date: int, monday: int)
    requires Weekday(monday) == 1 && monday <= date
    ensures ParseWeekLabel(WeekLabel(date, monday), monday) == Some(date)
  {
    if (date - monday) / 7 <= 2 {
      RoundTripNear(date, monday);
    } else {
      RoundTripFar(date, monday);
    }
  }

  lemma WeekLabelInjective(a: int, b: int, monday: int)
    requires Weekday(monday) == 1 && monday <= a && monday <= b
    requires WeekLabel(a, monday) == WeekLabel(b, monday)
    ensures a == b
  {
    WeekLabelRoundTrip(a, monday);
    WeekLabelRoundTrip(b, monday);
  }

  /** No week-relative phrase is one of the single words "Morgen", "Gestern", "Heute". */
  lemma WeekLabelIsLong(date: int, monday: int)
    ensures |WeekLabel(date, monday)| > 7
  {
  }
}
