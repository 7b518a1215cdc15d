# Pickwick Medical Center page: clinic status resolver

A Dafny model of the one piece of logic in the Pickwick Medical Center
single-page site (`src/App.jsx`): the clinic open/closed status resolver and
the small amount of component state around it.

- `ClinicStatus` (clinic_status.dfy): the resolver `checkClinicStatus` as the
  pure function `Resolve(day, hour, minute)`. It returns the four-field record
  `{isOpen, statusText, hoursText, colorClass}`. The schedule is hard-coded
  in its branches: Sunday is closed, Saturday is open 9:00-13:00, and Monday to
  Friday 9:00-18:00. Each interval includes its start and excludes its end.
  The source compares the decimal time `hour + minute / 60` with whole hours.
  The model keeps that decimal time as an exact Dafny `real` and proves it
  equivalent to comparing the hour alone. It also proves it equivalent to
  comparing the integer minute of the day with 540, 780 and 1080
  (`Expected`, the reference definition). The source computes the decimal time as
  an IEEE double. That loses nothing: the comparisons only test it against 9,
  13 and 18. For any hour h and minute m in 0..59, the double `h + m / 60` is
  at least h. It is below h + 1, because the largest fraction, 59/60, rounds
  to a double below 1 and the sum stays below the next integer. So the double
  and the exact `real` fall on the same side of every whole hour.
- `StatusDisplay` (status_display.dfy): the text derived from the record.
  That is the top contact bar line, and the status card's badge (colour
  class, dot colour and upper-cased status text).
- `StructuredData` (structured_data.dfy): the page also publishes its opening
  hours in a JSON-LD `openingHoursSpecification` list, independently of the
  resolver's branches. The model takes that list as a second statement of
  the schedule. It proves the resolver's `isOpen` agrees with the list at
  every minute of every day. The page itself never checks this.
- `PickwickPage` (pickwick_page.dfy): the component's state as a class.
  `isMobileMenuOpen`, `clinicStatus` and `formStatus` are replaced by the
  handlers: menu toggle, navigation, resolver evaluation, form submit, the
  submit timer and "Send another message". Each method states every field's
  new value. `Valid()` keeps `clinicStatus` either the initial "Checking..."
  record or a resolver result.

The clock reading is a parameter. `ValidClock` states the ranges that
`Date.getDay()`, `getHours()` and `getMinutes()` produce: day 0..6 with 0 =
Sunday, hour 0..23, minute 0..59. The form timer's firing is a method the
caller invokes. Whether the navigation target element exists is a boolean
parameter.

A configurable weekly schedule, with validation that rejects an entry whose
opening is not before its closing, is not what the code does. The code
hard-codes the three day classes and validates nothing. The model follows
the code. The only "schedule data" it has is the published JSON-LD list, and
`OpeningHoursValid` proves each entry of that list is a non-empty interval.

## Model

| member | source | states |
|---|---|---|
| ClinicStatus.Resolve | src/App.jsx:95-140 | open exactly when the day is not Sunday and 9 <= hour < 13 (Saturday) or < 18 (other days); open iff the text is "Open Now" iff the class is green; the hours line is fixed per day; the text is always one of the four branch texts |
| ClinicStatus.CurrentTime | src/App.jsx:100 | the decimal time times 60 is exactly the minute of the day 60 * hour + minute, and for a minute in 0..59 it lies in [hour, hour + 1) |
| ClinicStatus.HoursFor | src/App.jsx:111-127 | the hours line is "Closed" exactly on Sunday; on every other day it is a range beginning "9:00 AM - " |
| ClinicStatus.CompareWithWholeHour | src/App.jsx:100 | for 0 <= minute <= 59, comparing hour + minute/60 with a whole hour k (>= or <) is the same as comparing the hour with k |
| ClinicStatus.SundayClosed | src/App.jsx:107-112 | on day 0, at any hour and minute, the record is closed, "Closed Today", "Closed", slate |
| ClinicStatus.SaturdayStatus | src/App.jsx:113-119 | on day 6 the clinic is open exactly when 9 <= decimal time < 13, and the hours line is "9:00 AM - 1:00 PM" |
| ClinicStatus.WeekdayStatus | src/App.jsx:125-131 | on days 1-5 the clinic is open exactly when 9 <= decimal time < 18, and the hours line is "9:00 AM - 6:00 PM" |
| ClinicStatus.ClosedWorkingDay | src/App.jsx:120-136 | on a closed working day, before 9 the text is "Opens at 9:00 AM" in amber; from 9 on the hour is past the day's closing and the text is "Closed for the day" in red |
| ClinicStatus.Boundaries | src/App.jsx:116-128 | 9:00 is open on Monday and Saturday; 8:59 is "Opens at 9:00 AM"; 12:59 Saturday and 17:59 Monday are open; 13:00 Saturday and 18:00 Monday are "Closed for the day" |
| ClinicStatus.MinuteIrrelevant | src/App.jsx:97-100 | two readings with the same day and hour give the same record, whatever their minutes |
| ClinicStatus.ResolveMatchesMinuteOfDay | src/App.jsx:100-137 | the resolver equals the minute-of-day reference: open on [540, 780) on Saturday and [540, 1080) on weekdays, "opens later" before 540, "closed for the day" after closing, Sunday closed |
| StatusDisplay.TopBarDetermines | src/App.jsx:220 | two records with the same top-bar line agree on isOpen and on the hours line (the line can be read back) |
| StatusDisplay.TopBarText | src/App.jsx:220 | the top-bar line ends with the record's hours line and starts with 'O' ("Open Today: ") when open and 'C' ("Currently Closed • ") otherwise |
| StatusDisplay.TopBarCases | src/App.jsx:220 | before the first evaluation the bar is "Currently Closed • " with an empty hours line; on Sunday it is "Currently Closed • Closed"; on a working day it is "Open Today: " when open and "Currently Closed • " when closed, followed by the day's hours |
| StatusDisplay.ToUpper | src/App.jsx:368 | upper-casing keeps the length and maps each character through the ASCII lower-to-upper mapping |
| StatusDisplay.ToUpperIdempotent | src/App.jsx:368 | upper-casing an upper-cased text changes nothing |
| StatusDisplay.BadgeOf | src/App.jsx:366-368 | the badge keeps the record's colour class, shows the green dot when open and the red dot otherwise, and its caption is the status text upper-cased character by character |
| StatusDisplay.BadgeCaption | src/App.jsx:366-368 | at every clock reading the caption is "CLOSED TODAY" on Sunday, "OPEN NOW" during opening hours, "OPENS AT 9:00 AM" before 9 and "CLOSED FOR THE DAY" after closing |
| StatusDisplay.BadgeOfResolve | src/App.jsx:366-368 | for every resolver result the badge reads "OPEN NOW" exactly when its dot is green |
| StatusDisplay.BadgeOnSunday | src/App.jsx:366-368 | on Sunday the badge is slate with a red dot and reads "CLOSED TODAY" |
| StructuredData.ClockMinutes | src/App.jsx:76-83 | an "HH:MM" time denotes a minute of the day below 1440 whose hour and minute parts are the two digit pairs |
| StructuredData.OpeningHoursValid | src/App.jsx:72-85 | every published entry has well-formed times and opens strictly before it closes |
| StructuredData.ResolveAgreesWithStructuredData | src/App.jsx:72-85 | at every valid clock reading, the resolver's isOpen equals "some published entry lists this day and covers this minute, opening included, closing excluded" |
| PickwickPage.ReachableConsistent | src/App.jsx:102-139 | every record the page can hold (initial or resolved) is open iff "Open Now" iff green, and never shows the unused default text "Closed" |
| PickwickPage.ValidPageConsistent | src/App.jsx:28-139 | on a page whose record is the initial one or a resolver result, the record is open iff it reads "Open Now" iff its class is green |
| PickwickPage.PickwickMedical.constructor | src/App.jsx:24-36 | the menu starts closed, the status starts as the "Checking..." record, the form starts idle |
| PickwickPage.PickwickMedical.CheckClinicStatus | src/App.jsx:139 | the status record is replaced as a whole by the resolver's result; the other fields are unchanged |
| PickwickPage.PickwickMedical.HandleFormSubmit | src/App.jsx:160-162 | the form moves to submitting, so the submit button is disabled and the form (not the thank-you panel) is shown; the other fields are unchanged |
| PickwickPage.PickwickMedical.SubmitTimerElapsed | src/App.jsx:164-166 | the timer callback moves the form to success, so the thank-you panel replaces the form and the button is no longer disabled; the other fields are unchanged |
| PickwickPage.PickwickMedical.SendAnotherMessage | src/App.jsx:548-552 | "Send another message" returns the form to idle: the form is shown again with its button enabled; the other fields are unchanged |
| PickwickPage.PickwickMedical.ToggleMenu | src/App.jsx:252-258 | the menu flag is negated; the other fields are unchanged |
| PickwickPage.PickwickMedical.ScrollToSection | src/App.jsx:169-182 | the menu is closed when the target element exists and left as it was otherwise; the other fields are unchanged |
| PickwickPage.PickwickMedical.TopBar | src/App.jsx:220 | on a valid page the top-bar line ends with the record's hours line and starts with 'O' exactly when the record reads "Open Now" |
| PickwickPage.SubmittableIffIdle | src/App.jsx:541-599 | the form is shown with its submit button enabled exactly when the form phase is idle |
| PickwickPage.FormCycle | src/App.jsx:541-611 | submit, timer, then "Send another message" ends with the form idle, shown and submittable again, and with menu and status unchanged |
| PickwickPage.FirstEvaluation | src/App.jsx:28-33 | a fresh page's top bar is "Currently Closed • " until the first evaluation and the resolver's line after it |

## Left out

- Reading the weekday, hour and minute from `new Date()` in the browser's time zone. This is clock I/O, so the reading is a parameter constrained by `ValidClock`.
- The one-minute `setInterval` refresh, its `clearInterval` on unmount, and the 1.5-second `setTimeout` of the form submit. This is timer scheduling: only the state changes the callbacks make are modelled.
- The document title, the meta description, and the insertion and removal of the JSON-LD script element. These are DOM side effects. Only the opening-hours data of the JSON-LD block is modelled (`StructuredData`).
- The scroll listener and the `isScrolled` flag it sets. This is browser event I/O and drives styling only.
- The pixel offset arithmetic and the `window.scrollTo` call in `scrollToSection`. They use floating-point DOM geometry, so only the menu-closing effect is modelled.
- JSX rendering, icons, the map iframe, and the `ServiceCard`, `ReviewCard` and `FaqItem` components. They are presentation with no logic. Only the top-bar line and the status badge, which are derived from the status record, are modelled.
- StatusDisplay.ToUpper: models `toUpperCase` for ASCII letters only. Every text it is applied to on this page is ASCII, so full Unicode case mapping is not needed.
- Day values outside 0..6. The source's final `else` would treat them as weekdays, but `Date.getDay()` never produces them, so `Resolve` requires a valid clock reading.
