/** The text the page derives from the status record: the top contact bar
    and the badge of the floating status card. */
module StatusDisplay {
  import opened ClinicStatus

  const OpenPrefix := "Open Today: "
  const ClosedPrefix := "Currently Closed \U{2022} "

  /** The top contact bar line: it ends with the hours line, and its first
      letter is 'O' ("Open Today") when open and 'C' ("Currently Closed") otherwise. */
  function TopBarText(s: Status): (r: string)
    ensures |r| > |s.hoursText| && r[|r| - |s.hoursText|..] == s.hoursText
    ensures r[0] == (if s.isOpen then 'O' else 'C')
  {
    if s.isOpen then OpenPrefix + s.hoursText else ClosedPrefix + s.hoursText
  }

  /** The two prefixes differ in their first character, so the top-bar line
      tells whether the clinic is open and which hours line it shows. */
  lemma TopBarDetermines(s1: Status, s2: Status)
    requires TopBarText(s1) == TopBarText(s2)
    ensures s1.isOpen == s2.isOpen
    ensures s1.hoursText == s2.hoursText
  {
    var t := TopBarText(s1);
    assert t[0] == TopBarText(s2)[0];
    assert s1.isOpen == s2.isOpen;
    var n := if s1.isOpen then |OpenPrefix| else |ClosedPrefix|;
    assert s1.hoursText == t[n..];
    assert s2.hoursText == t[n..];
  }

  /** Before the first evaluation the bar reads as closed with an empty hours
      line; on Sunday it always reads "Currently Closed • Closed"; on a working
      day it reads "Open Today: " or "Currently Closed • " before the day's hours. */
  lemma TopBarCases(day: int, hour: int, minute: int)
    requires ValidClock(day, hour, minute)
    ensures TopBarText(InitialStatus) == "Currently Closed \U{2022} "
    ensures day == Sunday ==> TopBarText(Resolve(day, hour, minute)) == "Currently Closed \U{2022} Closed"
    ensures Resolve(day, hour, minute).isOpen ==>
      TopBarText(Resolve(day, hour, minute)) == "Open Today: " + HoursFor(day)
    ensures day != Sunday && !Resolve(day, hour, minute).isOpen ==>
      TopBarText(Resolve(day, hour, minute)) == "Currently Closed \U{2022} " + HoursFor(day)
  {
  }

  /** Upper-casing of one character, for the letters the page's texts use. */
  function UpperChar(c: char): char {
    if 'a' <= c <= 'z' then (c as int - 32) as char else c
  }

  /** String.prototype.toUpperCase on ASCII text. */
  function ToUpper(s: string): (r: string)
    ensures |r| == |s|
    ensures forall i :: 0 <= i < |s| ==> r[i] == UpperChar(s[i])
  {
    if s == [] then [] else [UpperChar(s[0])] + ToUpper(s[1..])
  }

  /** Upper-casing twice changes nothing more. */
  lemma ToUpperIdempotent(s: string)
    ensures ToUpper(ToUpper(s)) == ToUpper(s)
  {
    var u := ToUpper(s);
    forall i | 0 <= i < |s| ensures ToUpper(u)[i] == u[i] {
    }
  }

  /** What the status card's badge shows. */
  datatype Badge = Badge(colorClass: string, dotClass: string, caption: string)

  /** The badge keeps the record's colour class, shows a green dot when open
      and a red one otherwise, and upper-cases the status text. */
  function BadgeOf(s: Status): (b: Badge)
    ensures b.colorClass == s.colorClass
    ensures b.dotClass == "bg-green-500" <==> s.isOpen
    ensures !s.isOpen ==> b.dotClass == "bg-red-500"
    ensures |b.caption| == |s.statusText|
    ensures forall i :: 0 <= i < |s.statusText| ==> b.caption[i] == UpperChar(s.statusText[i])
  {
    Badge(s.colorClass, if s.isOpen then "bg-green-500" else "bg-red-500", ToUpper(s.statusText))
  }

  /** For every resolver result the badge reads "OPEN NOW" exactly when its
      dot is green; the other three captions differ from it in length. */
  lemma BadgeOfResolve(day: int, hour: int, minute: int)
    requires ValidClock(day, hour, minute)
    ensures BadgeOf(Resolve(day, hour, minute)).caption == "OPEN NOW" <==>
      BadgeOf(Resolve(day, hour, minute)).dotClass == "bg-green-500"
  {
    var s := Resolve(day, hour, minute);
    if s.isOpen {
      CaptionOpenNow();
    } else {
      assert |s.statusText| != |"OPEN NOW"|;
    }
  }

  /** On Sunday the badge is slate with a red dot and reads "CLOSED TODAY". */
  lemma BadgeOnSunday(hour: int, minute: int)
    requires ValidClock(Sunday, hour, minute)
    ensures BadgeOf(Resolve(Sunday, hour, minute)) ==
      Badge("bg-slate-100 text-slate-500", "bg-red-500", "CLOSED TODAY")
  {
    CaptionClosedToday();
  }

  /** The badge caption at every clock reading, by the same case split as
      the resolver: Sunday, open hours, before opening, after closing. */
  lemma BadgeCaption(day: int, hour: int, minute: int)
    requires ValidClock(day, hour, minute)
    ensures BadgeOf(Resolve(day, hour, minute)).caption ==
      if day == Sunday then "CLOSED TODAY"
      else if 9 <= hour < ClosingHour(day) then "OPEN NOW"
      else if hour < 9 then "OPENS AT 9:00 AM"
      else "CLOSED FOR THE DAY"
  {
    if day == Sunday {
      CaptionClosedToday();
    } else if 9 <= hour < ClosingHour(day) {
      CaptionOpenNow();
    } else if hour < 9 {
      ClosedWorkingDay(day, hour, minute);
      CaptionOpensLater();
    } else {
      ClosedWorkingDay(day, hour, minute);
      CaptionClosedForDay();
    }
  }

  /** Badge caption while open. */
  lemma CaptionOpenNow()
    ensures ToUpper("Open Now") == "OPEN NOW"
  {
    var s, u := "Open Now", "OPEN NOW";
    forall i | 0 <= i < |s| ensures UpperChar(s[i]) == u[i] {
    }
    UpperByCharacters(s, u);
  }

  /** Badge caption before opening on a working day. */
  lemma CaptionOpensLater()
    ensures ToUpper("Opens at 9:00 AM") == "OPENS AT 9:00 AM"
  {
    var s, u := "Opens at 9:00 AM", "OPENS AT 9:00 AM";
    forall i | 0 <= i < |s| ensures UpperChar(s[i]) == u[i] {
    }
    UpperByCharacters(s, u);
  }

  /** Badge caption after closing on a working day. */
  lemma CaptionClosedForDay()
    ensures ToUpper("Closed for the day") == "CLOSED FOR THE DAY"
  {
    var s, u := "Closed for the day", "CLOSED FOR THE DAY";
    forall i | 0 <= i < |s| ensures UpperChar(s[i]) == u[i] {
    }
    UpperByCharacters(s, u);
  }

  /** Badge caption on Sunday. */
  lemma CaptionClosedToday()
    ensures ToUpper("Closed Today") == "CLOSED TODAY"
  {
    var s, u := "Closed Today", "CLOSED TODAY";
    forall i | 0 <= i < |s| ensures UpperChar(s[i]) == u[i] {
    }
    UpperByCharacters(s, u);
  }

  /** Upper-casing `s` yields `u` when the two agree character by character. */
  lemma UpperByCharacters(s: string, u: string)
    requires |s| == |u|
    requires forall i :: 0 <= i < |s| ==> UpperChar(s[i]) == u[i]
    ensures ToUpper(s) == u
  {
  }
}
