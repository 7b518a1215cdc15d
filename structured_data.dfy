/** The opening hours the page publishes as schema.org structured data
    (an `openingHoursSpecification` list inside its JSON-LD block), taken as
    an independent statement of the schedule the resolver hard-codes. */
module StructuredData {
  import opened ClinicStatus

  /** One schema.org OpeningHoursSpecification entry; the times are "HH:MM". */
  datatype OpeningHoursSpecification =
    OpeningHoursSpecification(dayOfWeek: seq<string>, opens: string, closes: string)

  /** The two entries the page publishes. The Saturday entry gives its
      `dayOfWeek` as a single string; here it is a one-element list. */
  const OpeningHours := [
    OpeningHoursSpecification(["Monday", "Tuesday", "Wednesday", "Thursday", "Friday"], "09:00", "18:00"),
    OpeningHoursSpecification(["Saturday"], "09:00", "13:00")
  ]

  /** schema.org day names, indexed like Date.getDay(). */
  const DayNames := ["Sunday", "Monday", "Tuesday", "Wednesday", "Thursday", "Friday", "Saturday"]

  predicate IsDigit(c: char) {
    '0' <= c <= '9'
  }

  function DigitValue(c: char): int
    requires IsDigit(c)
  {
    c as int - '0' as int
  }

  /** A 24-hour "HH:MM" time of day. */
  predicate IsClock(t: string) {
    |t| == 5 && IsDigit(t[0]) && IsDigit(t[1]) && t[2] == ':' && IsDigit(t[3]) && IsDigit(t[4]) &&
    10 * DigitValue(t[0]) + DigitValue(t[1]) < 24 && 10 * DigitValue(t[3]) + DigitValue(t[4]) < 60
  }

  /** The minute of the day an "HH:MM" time denotes. */
  function ClockMinutes(t: string): (m: int)
    requires IsClock(t)
    ensures 0 <= m < 24 * 60
    ensures m / 60 == 10 * DigitValue(t[0]) + DigitValue(t[1])
    ensures m % 60 == 10 * DigitValue(t[3]) + DigitValue(t[4])
  {
    60 * (10 * DigitValue(t[0]) + DigitValue(t[1])) + 10 * DigitValue(t[3]) + DigitValue(t[4])
  }

  predicate WellFormed(specs: seq<OpeningHoursSpecification>) {
    forall k :: 0 <= k < |specs| ==> IsClock(specs[k].opens) && IsClock(specs[k].closes)
  }

  /** Whether some entry lists the day and covers minute `t` of it, its
      opening time included and its closing time excluded. */
  function OpenPerSpecs(specs: seq<OpeningHoursSpecification>, dayName: string, t: int): bool
    requires WellFormed(specs)
  {
    if specs == [] then false
    else
      (dayName in specs[0].dayOfWeek &&
       ClockMinutes(specs[0].opens) <= t < ClockMinutes(specs[0].closes)) ||
      OpenPerSpecs(specs[1..], dayName, t)
  }

  /** Every published entry is a well-formed, non-empty interval. */
  lemma OpeningHoursValid()
    ensures WellFormed(OpeningHours)
    ensures forall k :: 0 <= k < |OpeningHours| ==>
      ClockMinutes(OpeningHours[k].opens) < ClockMinutes(OpeningHours[k].closes)
  {
    assert ClockMinutes("09:00") == 540;
    assert ClockMinutes("13:00") == 780;
    assert ClockMinutes("18:00") == 1080;
  }

  /** The resolver's open flag agrees with the published opening hours at
      every minute of every day. */
  lemma ResolveAgreesWithStructuredData(day: int, hour: int, minute: int)
    requires ValidClock(day, hour, minute)
    ensures WellFormed(OpeningHours)
    ensures Resolve(day, hour, minute).isOpen == OpenPerSpecs(OpeningHours, DayNames[day], 60 * hour + minute)
  {
    OpeningHoursValid();
    var weekdays, saturday := OpeningHours[0], OpeningHours[1];
    var t := 60 * hour + minute;
    assert OpenPerSpecs(OpeningHours[2..], DayNames[day], t) == false;
    assert OpeningHours[1..][1..] == OpeningHours[2..];
    assert DayNames[day] in weekdays.dayOfWeek <==> 1 <= day <= 5;
    assert DayNames[day] in saturday.dayOfWeek <==> day == 6;
    ResolveMatchesMinuteOfDay(day, hour, minute);
  }
}
