# Ohboy Consultancy booking: a Dafny model

This project models the booking subsystem of the Ohboy Consultancy site.
Visitors book a one-hour discovery session through it.

- **Availability endpoint.** `GET /api/availability?date=YYYY-MM-DD` turns the day's working-hour rules into hourly slots. Each slot is marked unavailable when it is booked, blocked, or already past. A day without rules gets no slots. When no database is configured, Sunday to Thursday run 09:00–17:00.
- **Calendar invitation.** `generateICS` writes the invitation sent with a confirmed booking.
- **Booking page.** The page walks through four steps: date, time, details form, confirmation.
- **Date picker.** Only today and the next sixty days can be picked.
- **Hero typewriter.** It types and deletes its phrases in a cycle.

Everything is pure functions over immutable datatypes. The database, the clock and the random id are parameters.

| file | module | what it holds |
|---|---|---|
| `nullable.dfy` | `Nullable` | `Option`, for nullable values |
| `text.dfy` | `Text` | JavaScript string operations used by the code: `<` on strings, `slice`, `padStart`, `replace`, `split(".")[0]`, `join("\r\n")` and splitting at CRLF |
| `clock.dfy` | `Clock` | `toMinutes` and `fromMinutes`, and their round trips and order preservation |
| `civil_date.dfy` | `CivilDate` | the `YYYY-MM-DD` guard, and `getDayOfWeek` as ECMAScript `Date.UTC` computes it, related to the Gregorian weekday |
| `booking_types.dfy` | `BookingTypes` | the records of `types/booking.ts` |
| `availability.dfy` | `Availability` | the slot loop, a reference definition of the slots it produces, and what makes a slot available |
| `availability_endpoint.dfy` | `AvailabilityEndpoint` | the handler: the date guard, the three table reads or the default schedule, and the early return |
| `ics.dfy` | `Ics` | `generateICS`, and reading the document back |
| `booking_flow.dfy` | `BookingFlow` | the step machine, its handlers, and the invariant every reachable state keeps |
| `date_picker.dfy` | `DatePicker` | the calendar's `disabled` predicate |
| `typewriter.dfy` | `Typewriter` | the typewriter's timeout step and a whole type–pause–delete cycle |

Three behaviours of the code, rather than of the design, are modelled as written:

- **The past check compares text.** The slot's `…THH:MM:00Z` is compared with `new Date().toISOString()`, which reads `…THH:MM:SS.mmmZ`. During the first second of the slot's own minute, the slot still counts as not past. `Availability.SlotPastIff` states this exactly.
- **The page stays live while the booking is inserted.** `handleFormSubmit` awaits the database insert, and meanwhile Back is still shown and enabled; only the form is disabled. A visitor can go back and pick another slot or date before the insert settles. The settled handler then confirms the row the database returned for the insert sent at the click (or, without a database, the booking built at the click), whatever is selected by then (`BookingFlow.BackDuringInsert`, `BookingFlow.NewDateDuringInsert`). A conflict reported after the date was cleared leaves the time step without a date (`BookingFlow.ConflictAfterDateCleared`). The click and the settling are separate events of `BookingFlow.Run`.
- **Blocks compare text too.** A block whose start time is null or empty blocks the whole day. A block with a start time but a null end time blocks nothing, because `null >= "…"` is false in JavaScript. `Availability.BlockCovers` states both cases. `types/booking.ts` declares the block times as non-null strings; the route code handles null, and the model follows the code.

## Model

| member | source | states |
|---|---|---|
| Clock.ToMinutes | app/api/availability/route.ts:18-21 | the minute count is hours times sixty plus minutes; for a canonical "HH:MM" it is below 6000 and its remainder mod 60 is the minute field |
| Clock.ToMinutesFromMinutes | app/api/availability/route.ts:18-28 | for every minute count below 6000, `fromMinutes` gives a canonical "HH:MM" that `toMinutes` reads back as the same count |
| Clock.FromMinutesToMinutes | app/api/availability/route.ts:18-28 | every canonical "HH:MM" survives `toMinutes` followed by `fromMinutes` unchanged |
| Clock.TimeNamesMinute | app/api/availability/route.ts:18-28 | a canonical time equals `fromMinutes(m)` exactly when it denotes minute `m`, so comparing "HH:MM" strings compares minutes |
| Clock.FromMinutesOrder | app/api/availability/route.ts:24-28 | `fromMinutes` is strictly monotone for JavaScript's string order: `<` and `<=` on its outputs agree with `<` and `<=` on the minute counts |
| CivilDate.DayOfWeekIsGregorian | app/api/availability/route.ts:31-35 | for years 100 and later and months 1–12, the UTC weekday of `Date.UTC(y, m-1, d)` is the proleptic Gregorian weekday of y-m-d (day overflow included) |
| CivilDate.DayOfWeekTwoDigitYear | app/api/availability/route.ts:31-35 | years 0–99 are read by `Date.UTC` as 1900–1999, so "0024-03-05" gets the weekday of 1924-03-05 |
| CivilDate.MakeDayWeekday | app/api/availability/route.ts:34 | ECMAScript's day number of (y, m-1, d), taken mod 7 from a Thursday epoch, equals the Gregorian weekday formula for every year |
| Availability.RuleMinutes | app/api/availability/route.ts:109-137 | the inner loop runs once for each whole hour between a rule's start and end, and none when the window is shorter than an hour or reversed; it stops with less than an hour left |
| Availability.RuleMinutesAt | app/api/availability/route.ts:109-136 | the k-th turn of the inner loop starts at the rule's start plus k hours and its slot ends no later than the rule's end |
| Availability.BuildSlot | app/api/availability/route.ts:113-133 | for a valid date and a minute count whose hour ends before 6000, characters 11–16 of the slot's start and end are `fromMinutes(currentMins)` and `fromMinutes(currentMins + 60)`; with well-formed blocks the slot is available iff no canonical booking starts at that minute, no block covers it, and its start does not sort before `now` |
| Availability.PushRuleSlots | app/api/availability/route.ts:109-137 | the inner `while` loop appends exactly the reference slots of the rule, one per whole hour, in order |
| Availability.GenerateSlotsLoop | app/api/availability/route.ts:103-138 | the nested loops produce exactly the reference slot list |
| Availability.GenerateSlotsCount | app/api/availability/route.ts:108-138 | the number of slots is the sum over the rules of the whole hours each rule spans |
| Availability.GenerateSlotsAppend | app/api/availability/route.ts:108 | the rules are processed independently and in order: the slots for two rule lists concatenated are the two slot lists concatenated |
| Availability.ScheduleMinutesIndex | app/api/availability/route.ts:108-137 | the k-th hour of rule j comes right after the hours of the rules before j, and starts k hours after rule j does |
| Availability.GeneratedSlotAt | app/api/availability/route.ts:108-137 | every generated slot is the slot of the corresponding loop minute |
| Availability.GeneratedSlotOnGrid | app/api/availability/route.ts:108-137 | every generated slot starts on some rule's hourly grid and ends no later than that rule's end |
| Availability.RuleSlotsContiguous | app/api/availability/route.ts:114-117 | consecutive slots of one rule touch: each slot's end is the next slot's start |
| Availability.SlotSpan | app/api/availability/route.ts:113-117 | characters 11–16 of a slot's ISO start and end are canonical "HH:MM" times exactly one hour apart |
| Availability.BookedIff | app/api/availability/route.ts:119-121 | a slot counts as booked iff some booking starts at that very minute; the booking's end time plays no part |
| Availability.BlockCoversIff | app/api/availability/route.ts:123-126 | comparing a well-formed block's "HH:MM" strings agrees with comparing minutes: it covers the slot iff it is a full-day block or starts no later and ends no earlier than the slot |
| Availability.BlockedIff | app/api/availability/route.ts:123-126 | a slot is blocked iff one of the blocks covers its hour in minutes |
| Availability.SlotPastIff | app/api/availability/route.ts:106-128 | the string comparison with the current ISO time makes a slot past iff its date is earlier, or it is the same date and it started in an earlier minute, or it is the current minute and the seconds are past :00 |
| Availability.SlotAvailableIff | app/api/availability/route.ts:119-133 | a slot is available iff no booking starts at its minute, no block covers its hour, and its ISO start does not sort before now |
| Availability.FullDayBlockBlocksAll | app/api/availability/route.ts:124 | a block with a null or empty start time makes every slot of the day unavailable |
| Availability.AddBookingEffect | app/api/availability/route.ts:119-133 | adding a booking changes no slot's times or count and takes away exactly the slot that starts at its start time |
| Availability.PastMonotone | app/api/availability/route.ts:128 | on one day, a slot before a past slot is past too |
| Availability.IsoAtOrder | app/api/availability/route.ts:116-128 | on one day, ISO starts sort as their minutes do |
| AvailabilityEndpoint.Get | app/api/availability/route.ts:37-46 | the answer is status 400 with the format message iff the date is missing or not `DDDD-DD-DD`; otherwise it echoes the date |
| AvailabilityEndpoint.GetIsGenerator | app/api/availability/route.ts:48-140 | for a valid date and well-formed rows, with or without a backend, the answer is the slot generator run on the rules, bookings and blocks read for that date; the early answer for a day without rules is the generator's answer for no rules |
| AvailabilityEndpoint.RulesFor | app/api/availability/route.ts:60-69 | the rules used are exactly the active rows for the date's weekday, each time cut to five characters, and they are well formed |
| AvailabilityEndpoint.BookingsFor | app/api/availability/route.ts:71-80 | the bookings used are exactly the rows of that date that are not cancelled, times cut to five characters |
| AvailabilityEndpoint.BlocksFor | app/api/availability/route.ts:82-90 | the blocks used are exactly the rows of that date, non-null times cut to five characters and nulls kept |
| AvailabilityEndpoint.CutTime | app/api/availability/route.ts:88-89 | `t?.slice(0, 5) ?? null` keeps null as null and cuts a string to five characters |
| AvailabilityEndpoint.InputsFor | app/api/availability/route.ts:48-96 | without a backend there are no bookings or blocks, and the day has rules iff it is Sunday to Thursday |
| AvailabilityEndpoint.GetClosedDays | app/api/availability/route.ts:91-100 | without a backend, a Friday or Saturday is answered with no slots |
| AvailabilityEndpoint.GetClosedOnFridayAndSaturday | app/api/availability/route.ts:7-15 | without a backend, every date whose calendar weekday is Friday or Saturday gets no slots |
| AvailabilityEndpoint.GetDefaultOpenDay | app/api/availability/route.ts:7-15 | without a backend, Sunday to Thursday get eight hourly slots from 09:00 to 17:00 |
| AvailabilityEndpoint.DefaultDayBounds | app/api/availability/route.ts:8-12 | the default day's first slot starts at 09:00 and its eighth and last ends at 17:00 |
| AvailabilityEndpoint.ScenarioOpenDay | app/api/availability/route.ts:108-138 | on a default day not yet begun, with no bookings or blocks, all eight slots are available and the k-th starts at 09:00 plus k hours |
| AvailabilityEndpoint.ScenarioBookedAtEleven | app/api/availability/route.ts:119-133 | a booking at 11:00 makes only the 11:00 slot unavailable and leaves the other seven as they were |
| AvailabilityEndpoint.ScenarioFullDayBlock | app/api/availability/route.ts:124 | a block with null times makes all eight default slots unavailable |
| AvailabilityEndpoint.BookingsForAppend | app/api/availability/route.ts:71-80 | bookings are filtered row by row, in order |
| AvailabilityEndpoint.RulesForAppend | app/api/availability/route.ts:60-69 | rules are filtered row by row, in order |
| AvailabilityEndpoint.IgnoredBookingRow | app/api/availability/route.ts:71-75 | a cancelled booking, or one on another date, does not change the answer |
| AvailabilityEndpoint.IgnoredRuleRow | app/api/availability/route.ts:60-64 | an inactive rule, or one for another weekday, does not change the answer |
| AvailabilityEndpoint.ActiveBookingRow | app/api/availability/route.ts:71-80 | a live booking on the date keeps every slot's times and takes away exactly the slot starting at its cut start time |
| Ics.PropertyNameRoundTrip | lib/booking-utils.ts:48-64 | every property name written can be read back to its property |
| Ics.PropertyNameInjective | lib/booking-utils.ts:48-64 | different properties have different names |
| Ics.DescriptionOf | lib/booking-utils.ts:58 | DESCRIPTION is the booking's description, or the default sentence when it is empty |
| Ics.UtcDateTimeRoundTrip | lib/booking-utils.ts:44-45 | DTSTART and DTEND values are iCalendar UTC DATE-TIMEs (`YYYYMMDDTHHMMSSZ`) that parse back to the booking's date and time, with zero seconds |
| Ics.ParseUtcDateTimeInverse | lib/booking-utils.ts:44-45 | every UTC DATE-TIME with zero seconds is the DTSTART/DTEND encoding of its parsed date and time |
| Ics.StampOfIso | lib/booking-utils.ts:46 | DTSTAMP is a UTC DATE-TIME that parses back to the date, hour, minute and second of the ISO time it was made from |
| Ics.IcsLines | lib/booking-utils.ts:48-64 | when no field holds a carriage return, splitting the document at CRLF gives back exactly the fifteen rendered content lines |
| Ics.IcsEnvelope | lib/booking-utils.ts:48-64 | the document has fifteen lines: a VCALENDAR holding one VEVENT, with BEGIN only on lines 0 and 3 and END only on lines 13 and 14; it starts with BEGIN:VCALENDAR and ends with END:VCALENDAR, no trailing CRLF |
| Ics.IcsProperties | lib/booking-utils.ts:48-64 | reading any property other than BEGIN and END by name from the document gives the value the booking and the stamp assign it: version 2.0, the product id, the start and end times, the stamp, the UID, summary, description, organizer, attendee and status CONFIRMED |
| Ics.IcsTimesRoundTrip | lib/booking-utils.ts:44-54 | reading DTSTART and DTEND from the document and parsing them gives back the booking's date and start and end times |
| Ics.IcsStampRoundTrip | lib/booking-utils.ts:46-55 | reading DTSTAMP from the document and parsing it gives back the injected time, to the second |
| Ics.ReadRendered | lib/booking-utils.ts:48-64 | looking up a property by name in the rendered text finds the same value as looking it up in the structured lines |
| Ics.HasNameRendered | lib/booking-utils.ts:48-64 | a rendered line carries a name iff its property has that name, since no name holds a colon |
| BookingFlow.StepIndex | components/booking/booking-flow.tsx:121 | the index is the first position of the current step in the indicator's list |
| BookingFlow.IndicatorShape | components/booking/booking-flow.tsx:121-130 | exactly the current step is shown active; the steps before it are shown completed and the steps after it neither |
| BookingFlow.SelectDate | components/booking/booking-flow.tsx:47-53 | picking a date clears the slot and moves to the time step; clearing the date clears the slot and stays |
| BookingFlow.SelectSlot | components/booking/booking-flow.tsx:55-58 | picking a slot keeps the date and moves to the form |
| BookingFlow.GoBack | components/booking/booking-flow.tsx:115-119 | Back clears the error and moves time to date and form to time; other steps stay; selections are kept |
| BookingFlow.ShowBackIffGoBackMoves | components/booking/booking-flow.tsx:115-159 | the Back button is shown exactly on the steps where Back changes the step |
| BookingFlow.BookingFor | components/booking/booking-flow.tsx:66-108 | the booking record carries the chosen date, characters 11–16 of the slot's start and end, the form's fields, the timezone, and status confirmed |
| BookingFlow.BeginSubmit | components/booking/booking-flow.tsx:60-79 | without a date and a slot the click does nothing; otherwise it marks the page busy, clears the error, and captures the date, slot, form and timezone shown at the click, leaving the step and selection as they are |
| BookingFlow.Settle | components/booking/booking-flow.tsx:84-112 | applied to the page as it is when the insert settles: a unique-key conflict moves to the time step with the conflict message; another error keeps the step with the generic message; success confirms the row the insert returned, and the local fallback the booking built from what the click captured, both moving to confirmation; the busy flag is cleared and the current selection is left alone |
| BookingFlow.SubmitUninterrupted | components/booking/booking-flow.tsx:60-113 | when nothing happens between the click and the settling, the insert sends the date and slot the page shows; the page is then left idle on the step the outcome dictates, with the returned row (or the local booking of that date and slot) confirmed |
| BookingFlow.StepProgress | components/booking/booking-flow.tsx:47-119 | picking a date or a slot moves one place along the indicator; a submit click leaves the step until its insert settles, and a successful settle from the form step moves one place on; Back moves one place back |
| BookingFlow.BackUndoesForward | components/booking/booking-flow.tsx:47-119 | Back after picking a date or a slot returns to the step it came from, with the choice kept |
| BookingFlow.RunConsistent | components/booking/booking-flow.tsx:36-170 | in every state reachable through the page, with or without a database: the form step has its date and slot; the time step has its date unless a conflict sent the page there after the date was cleared; a booking is confirmed exactly on the confirmation step, with no error shown; the page is busy exactly while an insert is awaited, never on the confirmation step; any error is one of the two messages |
| BookingFlow.RunConfirmsClick | components/booking/booking-flow.tsx:60-112 | the awaited insert comes from an accepted submit click of the run and carries the date and slot the page showed at that click and the form sent with it; a stored confirmed booking is the row returned by a later settling of exactly that insert; a local one is the booking built at the click; whatever the visitor did in between |
| BookingFlow.RunLocalMatchesSelection | components/booking/booking-flow.tsx:102-112 | without a database the handler never awaits, so in every reachable state the confirmed booking has status confirmed and carries the date and slot the page shows |
| BookingFlow.BackDuringInsert | components/booking/booking-flow.tsx:84-170 | Back stays available while the insert is awaited: after picking another slot the awaited insert still carries the first one, and its returned row is confirmed with the second left selected |
| BookingFlow.NewDateDuringInsert | components/booking/booking-flow.tsx:84-170 | going back to the date step and picking another date leaves the insert of the first date awaited, and its returned row is confirmed with the other date and no slot selected |
| BookingFlow.ConflictAfterDateCleared | components/booking/booking-flow.tsx:90-93 | a conflict reported after the visitor went back and cleared the date leaves the page on the time step with no date, showing only the message and Back |
| BookingFlow.ConfirmationIsFinal | components/booking/booking-flow.tsx:159 | the confirmation step offers no action that changes the state |
| BookingFlow.BookedTimesFromGenerator | components/booking/booking-flow.tsx:67-68 | a booking made from a generated slot stores canonical "HH:MM" times one hour apart, the start being the loop minute the slot came from |
| DatePicker.EnabledBetween | components/booking/date-picker.tsx:25-27 | the listed days lie in the range and can all be picked |
| DatePicker.EnabledBetweenComplete | components/booking/date-picker.tsx:25-27 | every pickable day in the range is listed |
| DatePicker.WindowIsSixtyOneDays | components/booking/date-picker.tsx:12-27 | however wide the calendar, the pickable days are exactly the 61 consecutive days from today |
| Typewriter.Step | components/magicui/typewriter.tsx:22-43 | each step keeps the shown text a prefix of the current phrase; it waits the deleting speed while deleting, the typing speed while typing, and typing speed plus pause before deleting starts |
| Typewriter.StepEffect | components/magicui/typewriter.tsx:27-40 | typing appends the phrase's next character; a full phrase turns to deleting; deleting drops the last character; an empty text moves to the next phrase, wrapping round |
| Typewriter.TypingPhase | components/magicui/typewriter.tsx:28-42 | k typing steps show k more characters of the phrase and take k typing delays |
| Typewriter.DeletingPhase | components/magicui/typewriter.tsx:34-42 | k deleting steps remove k characters and take k deleting delays |
| Typewriter.FullCycle | components/magicui/typewriter.tsx:14-42 | a phrase of n characters takes 2n+2 steps to type, pause, delete and move on, ending empty at the next phrase after n+1 typing delays, one pause, and n+1 deleting delays |
| Typewriter.TypeAndPause | components/magicui/typewriter.tsx:27-31 | from an empty text, typing the whole phrase and the pause take one step per character plus one, and end in deleting mode with the phrase shown |
| Typewriter.DeleteAndMoveOn | components/magicui/typewriter.tsx:32-39 | from the whole phrase in deleting mode, one step per character plus one empties the text and moves on to the next phrase, wrapping after the last |
| Text.SplitJoinCrlf | lib/booking-utils.ts:64 | joining lines without carriage returns by CRLF and splitting at CRLF gives the lines back |
| Text.NatToStringValue | app/api/availability/route.ts:25-26 | `toString` of a number gives its decimal digits, most significant first |

## Left out

- The database (Supabase) is not modelled as I/O. The three table reads are the rows of `AvailabilityEndpoint.Backend`. The insert's result is the `BookingFlow.SubmitOutcome` input. `lib/supabase.ts` is not part of this model.
- AvailabilityEndpoint.BackendWellFormed assumes every rule's time columns start with "HH:MM", as a Postgres `time` column does. The `NaN` path of `toMinutes` on other text is not modelled.
- Clock.ToMinutesFromMinutes covers minute counts below 6000, the range where `fromMinutes` gives two hour digits. The generator only reaches these when every rule ends by 99:59.
- The current time, `crypto.randomUUID()` and the database's `created_at` are parameters. These are `now` in `AvailabilityEndpoint.Get`, `nowIso` in `Ics.GenerateICS`, the id and creation time of `BookingFlow.SubmitOutcome`'s local fallback, and the row its stored outcome returns.
- Time zones and locale formatting are not modelled. This covers `getUserTimezone`, `toZonedTime` and `format(..., "h:mm a")`. `startLocal` and `endLocal` are carried as given strings. The selected date is held as the "yyyy-MM-dd" text that `format` produces.
- BookingFlow.Settle: on the database path the page confirms the row the insert returns (`data as Booking`), which is an input here; the model does not relate it to the payload sent. Postgres `time` columns read back with seconds (the availability route cuts them with `slice(0, 5)`), so the confirmed times likely carry seconds, and the confirmation screen receives them as they are.
- BookingFlow.RunConsistent: no longer promises that a confirmed booking has status confirmed, because a returned row's status is whatever the database holds; `BookingFlow.RunLocalMatchesSelection` still promises it without a database.
- `downloadICS` is not modelled, because it is a browser download. Sending the confirmation and contact emails is not modelled either (`lib/email.ts`, `app/api/send-*`), because it is network I/O.
- Ics.GenerateICS folds no lines and escapes nothing, like the code. Lines longer than 75 octets, and commas, semicolons or newlines in names and descriptions, are written through unchanged. The read-back lemmas require that no field holds a carriage return.
- Typewriter.Step: lengths, `slice` and the string order of `Text.LexLess` are over Unicode scalar values, not JavaScript's UTF-16 code units. They differ only on characters outside the Basic Multilingual Plane, such as emoji. There, JavaScript would show half a character for one step. The phrases and all compared times are ASCII.
- DatePicker: `today` is computed once, when the module loads. Days are numbered consecutively, so local-midnight and daylight-saving arithmetic are not modelled.
- Typewriter.Step requires a phrase list that is not empty and an index within it. The component would read `undefined` otherwise. Timers, effect cleanup and rendering are not modelled. Only the state change and its delay are.
- The step indicator's icons and labels, animations (`BlurFade`), the time-slot grid's loading and error states, and the rest of the site's pages are presentation and are not modelled. The grid's rule of offering only available slots is kept as `BookingFlow.Enabled`.
- The optional `reason` of a blocked slot is not modelled. The availability code never reads it.
