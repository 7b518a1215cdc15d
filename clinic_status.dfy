/** The open/closed status resolver of the Pickwick Medical Center page.
    Given the weekday, hour and minute of the local clock it produces the
    four-field record the page renders. The schedule is hard-coded in the
    branches: Sunday closed, Saturday 9:00-13:00, Monday to Friday 9:00-18:00,
    each interval including its start and excluding its end. */
module ClinicStatus {

  /** The record held in the component's `clinicStatus` state. */
  datatype Status = Status(isOpen: bool, statusText: string, hoursText: string, colorClass: string)

  // Status texts
  const OpenNow := "Open Now"
  const OpensLater := "Opens at 9:00 AM"
  const ClosedForDay := "Closed for the day"
  const ClosedToday := "Closed Today"
  const Checking := "Checking..."

  // Hours texts
  const SaturdayHours := "9:00 AM - 1:00 PM"
  const WeekdayHours := "9:00 AM - 6:00 PM"
  const SundayHours := "Closed"

  // Badge colour classes
  const Green := "bg-green-100 text-green-700"
  const Amber := "bg-amber-100 text-amber-700"
  const Red := "bg-red-100 text-red-700"
  const Slate := "bg-slate-100 text-slate-500"
  const CheckingColor := "bg-slate-100 text-slate-600"

  // Weekday numbering of Date.getDay(): 0 = Sunday ... 6 = Saturday
  const Sunday := 0
  const Saturday := 6

  /** The record shown before the first evaluation. */
  const InitialStatus := Status(false, Checking, "", CheckingColor)

  /** The ranges Date.getDay(), getHours() and getMinutes() produce. */
  predicate ValidClock(day: int, hour: int, minute: int) {
    0 <= day <= 6 && 0 <= hour <= 23 && 0 <= minute <= 59
  }

  /** Decimal time of day, hour plus the fraction minute/60. Dafny's `real`
      is exact, so every comparison below is decided as with exact values. */
  function CurrentTime(hour: int, minute: int): (t: real)
    ensures t * 60.0 == (60 * hour + minute) as real
    ensures 0 <= minute < 60 ==> hour as real <= t < (hour + 1) as real
  {
    hour as real + minute as real / 60.0
  }

  /** The hour (exclusive) at which a working day ends. */
  function ClosingHour(day: int): int {
    if day == Saturday then 13 else 18
  }

  /** The hours line for a day: "Closed" exactly on Sunday, otherwise a
      range that starts at the 9:00 opening. */
  function HoursFor(day: int): (r: string)
    ensures r == SundayHours <==> day == Sunday
    ensures day != Sunday ==> |r| > 10 && r[..10] == "9:00 AM - "
  {
    if day == Sunday then SundayHours else if day == Saturday then SaturdayHours else WeekdayHours
  }

  /** The resolver, branch for branch. The locals' initial values ("Closed",
      the red class) are overwritten on every path and never reach the result. */
  function Resolve(day: int, hour: int, minute: int): (s: Status)
    requires ValidClock(day, hour, minute)
    ensures s.isOpen <==> day != Sunday && 9 <= hour < ClosingHour(day)
    ensures s.isOpen <==> s.statusText == OpenNow
    ensures s.isOpen <==> s.colorClass == Green
    ensures s.hoursText == HoursFor(day)
    ensures s.statusText in {OpenNow, OpensLater, ClosedForDay, ClosedToday}
  {
    var currentTime := CurrentTime(hour, minute);
    if day == Sunday then
      Status(false, ClosedToday, SundayHours, Slate)
    else if day == Saturday then
      if currentTime >= 9.0 && currentTime < 13.0 then
        Status(true, OpenNow, SaturdayHours, Green)
      else
        Status(false,
               if currentTime < 9.0 then OpensLater else ClosedForDay,
               SaturdayHours,
               if currentTime < 9.0 then Amber else Red)
    else
      if currentTime >= 9.0 && currentTime < 18.0 then
        Status(true, OpenNow, WeekdayHours, Green)
      else
        Status(false,
               if currentTime < 9.0 then OpensLater else ClosedForDay,
               WeekdayHours,
               if currentTime < 9.0 then Amber else Red)
  }

  /** Because 0 <= minute/60 < 1, comparing the decimal time with a whole
      hour is the same as comparing the hour alone. */
  lemma CompareWithWholeHour(hour: int, minute: int, k: int)
    requires 0 <= minute <= 59
    ensures CurrentTime(hour, minute) >= k as real <==> hour >= k
    ensures CurrentTime(hour, minute) < k as real <==> hour < k
  {
  }

  /** Sunday is closed at every hour and minute. */
  lemma SundayClosed(hour: int, minute: int)
    requires ValidClock(Sunday, hour, minute)
    ensures Resolve(Sunday, hour, minute) == Status(false, ClosedToday, "Closed", Slate)
  {
  }

  /** Saturday: open exactly on [9, 13), hours line always "9:00 AM - 1:00 PM". */
  lemma SaturdayStatus(hour: int, minute: int)
    requires ValidClock(Saturday, hour, minute)
    ensures Resolve(Saturday, hour, minute).isOpen <==> 9.0 <= CurrentTime(hour, minute) < 13.0
    ensures Resolve(Saturday, hour, minute).hoursText == "9:00 AM - 1:00 PM"
  {
  }

  /** Monday to Friday: open exactly on [9, 18), hours line always "9:00 AM - 6:00 PM". */
  lemma WeekdayStatus(day: int, hour: int, minute: int)
    requires ValidClock(day, hour, minute) && 1 <= day <= 5
    ensures Resolve(day, hour, minute).isOpen <==> 9.0 <= CurrentTime(hour, minute) < 18.0
    ensures Resolve(day, hour, minute).hoursText == "9:00 AM - 6:00 PM"
  {
  }

  /** On a working day outside opening hours, the text and the colour split
      on whether the day's opening is still ahead. */
  lemma ClosedWorkingDay(day: int, hour: int, minute: int)
    requires ValidClock(day, hour, minute) && day != Sunday
    requires !Resolve(day, hour, minute).isOpen
    ensures hour < 9 ==>
      Resolve(day, hour, minute).statusText == "Opens at 9:00 AM" &&
      Resolve(day, hour, minute).colorClass == "bg-amber-100 text-amber-700"
    ensures hour >= 9 ==>
      hour >= ClosingHour(day) &&
      Resolve(day, hour, minute).statusText == "Closed for the day" &&
      Resolve(day, hour, minute).colorClass == "bg-red-100 text-red-700"
  {
  }

  /** The interval edges: the opening minute is open, the closing minute is
      closed, the minute before opening is not open. */
  lemma Boundaries()
    ensures Resolve(1, 9, 0).isOpen && Resolve(6, 9, 0).isOpen
    ensures Resolve(1, 8, 59) == Status(false, "Opens at 9:00 AM", "9:00 AM - 6:00 PM", Amber)
    ensures Resolve(6, 8, 59) == Status(false, "Opens at 9:00 AM", "9:00 AM - 1:00 PM", Amber)
    ensures Resolve(1, 17, 59).isOpen && Resolve(6, 12, 59).isOpen
    ensures Resolve(1, 18, 0) == Status(false, "Closed for the day", "9:00 AM - 6:00 PM", Red)
    ensures Resolve(6, 13, 0) == Status(false, "Closed for the day", "9:00 AM - 1:00 PM", Red)
  {
  }

  /** The result depends on the day and the hour only, never on the minute. */
  lemma MinuteIrrelevant(day: int, hour: int, m1: int, m2: int)
    requires ValidClock(day, hour, m1) && ValidClock(day, hour, m2)
    ensures Resolve(day, hour, m1) == Resolve(day, hour, m2)
  {
  }

  /** Reference definition on the integer minute of the day (60 * hour + minute):
      opening at minute 540, closing at 780 on Saturday and 1080 on weekdays. */
  function Expected(day: int, t: int): Status {
    var close := if day == Saturday then 780 else 1080;
    if day == Sunday then Status(false, ClosedToday, SundayHours, Slate)
    else if 540 <= t < close then Status(true, OpenNow, HoursFor(day), Green)
    else if t < 540 then Status(false, OpensLater, HoursFor(day), Amber)
    else Status(false, ClosedForDay, HoursFor(day), Red)
  }

  /** The decimal-hour resolver agrees with the minute-of-day reference everywhere. */
  lemma ResolveMatchesMinuteOfDay(day: int, hour: int, minute: int)
    requires ValidClock(day, hour, minute)
    ensures Resolve(day, hour, minute) == Expected(day, 60 * hour + minute)
  {
  }
}
