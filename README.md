# Telemed appointment scheduling in Dafny

This project models the appointment scheduling core of the Telemed web
application, a Node/Express server over MySQL with browser scripts for
patients and doctors. It covers:

- **Slot grid and availability** (`server.js`): a date is mapped to a
  lower-case weekday name. The doctor's weekly template (a JSON object of
  `{start, end}` texts per weekday) gives the working window. The window is
  cut into 30-minute slots below its end, and every slot held by a
  `scheduled` appointment of that doctor and date is removed.
- **Appointment store** (`server.js`): a `Clinic` class holds the doctors
  table and the appointments table. Each route body is one atomic method:
  book, reschedule, patient cancel, doctor complete or cancel, slot check,
  admin status overwrite, and doctor deactivation.
  - The central invariant `AtMostOneScheduled` says no two `scheduled`
    appointments share a (doctor, date, time) slot. The guarded handlers keep
    it (`Clinic.Valid()`).
  - `ClosedRowsFrozen` says completed and canceled rows are never changed
    again.
- **Front-end helpers**:
  - the 12-hour `formatTime` of the booking page and of the appointment list
    (the two copies are identical);
  - the booking page's slot generator, which skips a break window;
  - the gate that shows the reschedule and cancel buttons only on
    scheduled appointments;
  - the doctor profile form's schedule builder and loader, with their round
    trip;
  - the patient age text.

Modules, one per file:

| module | file |
|---|---|
| `Common` | Option and Result types, decimal text of numbers |
| `Clock` | minutes of the day, "HH:MM" text, the MySQL "HH:MM:SS" text, string order |
| `Calendar` | Gregorian dates, day of the week, weekday names |
| `WeeklySchedule` | the doctor's weekly template as an insertion-ordered object |
| `SlotGrid` | slot grid and removal of booked slots |
| `Appointments` | the tables, the route handlers, the invariants |
| `TimeFormat` | `formatTime` |
| `AppointmentView` | the `canModify` gate |
| `BookingForm` | the client-side `generateTimeSlots` with a break |
| `DoctorProfile` | the profile form's save and load |
| `PatientAge` | `calculateAge` |

Representation choices:

- A time of day is a number of minutes in 0..1439 (`Clock.Minute`). The
  source's `new Date('2000-01-01 HH:MM')` becomes `ParseTime`, and
  `toTimeString().slice(0, 5)` becomes `TimeText`.
- A MySQL TIME value comes back to JavaScript as the text "HH:MM:SS"
  (`ColumnText`).
- JavaScript's `<` on strings is `LexLess`.
- A JSON object is a list of entries kept in insertion order. Duplicate
  keys in the stored text are not represented: where two entries share a
  day, `Lookup` answers with the first. A missing or falsy `start`/`end` is
  the empty string.
- Database ids are naturals; AUTO_INCREMENT is `Clinic.nextId`.

Where the specification and the code differ, the model follows the code:

- The route registered first wins. `POST /api/appointments` and
  `PUT /api/appointments/:id/reschedule` therefore run their unguarded
  versions (see Findings).
- `check-slot-availability` accepts the end of the working window
  (`time > end` rejects), while the grid never offers it.

## Model

| member | source | states |
|---|---|---|
| Clock.TimeText | server.js:230 | the slot text of a time is five characters "HH:MM" with ':' in the middle |
| Clock.ParseTimeText | server.js:225-230 | parsing the "HH:MM" text of a time gives the time back |
| Clock.ParseTime | server.js:225-226 | only a five-character text with a colon in the middle is read as a time; the round trip with the "HH:MM" text is stated by Clock.ParseTimeText and Clock.TimeTextParse |
| Clock.TimeTextParse | server.js:225-226 | a text that parses as a time is exactly that time's "HH:MM" text (no other spelling is accepted) |
| Clock.ColumnText | server.js:248 | the TIME column text is eight characters and its first five are the slot text |
| Clock.LexLessTimeText | server.js:1360-1362 | on "HH:MM" texts the string comparison `<` agrees with the order of the times |
| Calendar.DayOfWeek | server.js:211-213 | every valid date has a weekday number in 0..6 |
| Calendar.ReadDate | server.js:211 | a date text is read exactly when its month is 1..12 and its day 1..31; a calendar date reads as itself, and a day past its month's end rolls over into a calendar date of the next month |
| Calendar.WeekdayKey | server.js:211-213 | a calendar date maps to the lower-case name of its weekday; a date text that is read names a weekday, and the key is "invalid date" exactly when the text is not read |
| Calendar.RollsIntoNextMonth | server.js:211-213 | in a month shorter than 31 days, the day one past the last names the weekday of the next month's first day |
| Calendar.NextDayWeekday | server.js:211-213 | the weekday advances by exactly one from every date to the next, across month ends, year ends and leap days |
| Calendar.KnownMonday | server.js:211-213 | 10 June 2024 maps to "monday" |
| WeeklySchedule.Lookup | server.js:217 | `schedule[day]` is absent exactly when the day is not a key, and otherwise is the entry stored under that key |
| WeeklySchedule.Put | public/js/doctor/profile.js:113-116 | assigning a key adds it to the keys, makes it map to the new hours, and leaves every other key's value unchanged |
| WeeklySchedule.PutKeepsDistinct | public/js/doctor/profile.js:113-116 | assigning a key never makes a key occur twice |
| WeeklySchedule.HoursOn | server.js:216-221 | a date has working hours exactly when its weekday is a key whose start and end are both non-empty |
| WeeklySchedule.DefaultScheduleHours | server.js:1689-1697 | under the default template a date has hours exactly from Monday to Friday, and they are 09:00 to 17:00 |
| SlotGrid.Grid | server.js:224-232 | the grid is empty exactly when start >= end, and every slot lies between start and end, end excluded |
| SlotGrid.GridShape | server.js:224-232 | the grid starts at start, steps by 30, every slot is below end, it has ceil((end-start)/30) slots and is empty when start >= end |
| SlotGrid.TextsOfAt | server.js:229-232 | there is one text per time, and each text is the "HH:MM" text of the time at the same position |
| SlotGrid.GenerateSlots | server.js:224-232 | the loop pushes exactly the grid texts of the window; an unparseable start or end gives no slot |
| SlotGrid.Available | server.js:247-251 | a slot is kept exactly when it is in the grid and no booked TIME value has it as its first five characters; nothing is added |
| SlotGrid.AvailableKeepsOrder | server.js:247-251 | the filtered slots keep the grid's order (a subsequence) |
| SlotGrid.AvailableWhenNothingBooked | server.js:247-251 | with no slot booked the whole grid is offered |
| SlotGrid.GenerateTimeSlots | server.js:353-372 | the loop returns the available grid slots of the day, matching bookings on their "HH:MM" prefix (corrected comparison) |
| SlotGrid.GenerateTimeSlotsAsWritten | server.js:353-372 | the loop as written filters the grid by whole-text equality with the booked TIME values |
| SlotGrid.AvailableExact | server.js:365 | a slot is kept exactly when it is in the grid and no booked time equals it as a whole text; the result is no longer than the grid |
| SlotGrid.ExactMatchIgnoresBookings | server.js:365 | comparing five-character slots with eight-character TIME texts removes nothing |
| SlotGrid.MorningGrid | server.js:224-232 | 09:00 to 11:00 gives 09:00, 09:30, 10:00, 10:30 |
| SlotGrid.BookedSlotStillOffered | server.js:365 | for any slot of the day booked through the TIME column, the corrected filter drops it and the as-written one still offers it |
| Appointments.NewAppointment | server.js:1405-1410 | a booked row starts scheduled with a reschedule count of 0 |
| Appointments.Rescheduled | server.js:1634-1643 | a reschedule moves the date and time, records the old ones as previous, adds one to the count and changes nothing else |
| Appointments.UpdateKeepsAtMostOne | server.js:1390-1410 | writing one row keeps at-most-one-scheduled-per-slot when the row, if scheduled, takes a slot no other row holds |
| Appointments.BookedTimesMatch | server.js:236-251 | a slot counts as booked exactly when a scheduled appointment of the doctor on that date is at that time |
| Appointments.WithinHoursMeaning | server.js:1359-1362 | on well-formed texts the range test accepts exactly start <= time <= end, the end included |
| Appointments.EndCheckedButNeverOffered | server.js:1360-1362 | the slot check accepts the end of the window, yet the grid never offers it |
| Appointments.Clinic.constructor | server.js:1371-1425 | an empty appointments table satisfies the invariant |
| Appointments.Clinic.AvailableSlots | server.js:185-259 | unknown doctor fails; an unreadable template fails; otherwise the result is a subsequence of the day's grid holding exactly the grid slots no scheduled appointment of that doctor and date takes |
| Appointments.Clinic.CheckSlot | server.js:1322-1368 | the checks run in the source's order, each answer given exactly when every earlier check passed and its own fails: a taken slot, then a missing doctor, then an unreadable template, then no hours that day, then a time outside start..end by string comparison; otherwise the slot is free |
| Appointments.Clinic.Book | server.js:1371-1425 | missing doctor or taken slot fails with no change; otherwise exactly one new scheduled row is added under a fresh id and every other row is unchanged; the invariant is kept |
| Appointments.Clinic.BookUnguarded | server.js:154-168 | inserts a new row under a fresh id whatever the doctor and the slot |
| Appointments.Clinic.Reschedule | server.js:1598-1654 | only the requester's own scheduled appointment moves; the conflict check ignores the appointment itself; on success previous date and time and count are set and status stays scheduled; on failure nothing changes; the invariant is kept |
| Appointments.Clinic.RescheduleUnguarded | server.js:377-416 | moves the requester's appointment whatever its status and whatever occupies the target slot |
| Appointments.Clinic.CancelByPatient | server.js:419-448 | only the requester's own scheduled appointment is canceled, with the reason stored; otherwise not found and no change; closed rows are never reopened |
| Appointments.Clinic.CloseByDoctor | server.js:1428-1467 | only the doctor's own scheduled appointment becomes completed or canceled, with no reason stored; otherwise not found and no change |
| Appointments.Clinic.SetStatus | server.js:1998-2015 | any existing row takes the given status; a missing id is not found |
| Appointments.Clinic.SetDoctorStatus | server.js:2055-2087 | deactivation is refused exactly when the doctor has a scheduled appointment (checked before the doctor's existence); otherwise an existing doctor always takes the new status and a missing one is not found; a successful deactivation leaves the doctor no scheduled appointment |
| Appointments.BookSameSlotTwice | server.js:1371-1425 | of two bookings of the same free slot the first succeeds and the second is refused |
| Appointments.BookUnguardedTwice | server.js:154-168 | booking the same slot twice through the handler that runs, on a new clinic, gives two distinct rows that both hold the slot, so at-most-one-scheduled is broken |
| Appointments.UnguardedBookingDoubleBooks | server.js:154-168 | inserting a second scheduled row at a held slot breaks at-most-one-scheduled |
| Appointments.UnguardedRescheduleBreaksInvariants | server.js:377-416 | the unguarded reschedule can move onto a held slot and can change a completed appointment |
| Appointments.AdminOverwriteReopens | server.js:1998-2015 | the admin overwrite can reopen a canceled row onto a slot booked since |
| TimeFormat.Split | public/js/view-appointments.js:236 | no field of `split(':')` contains ':' and there is at least one field |
| TimeFormat.JoinSplit | public/js/view-appointments.js:236 | joining the fields with ':' gives the text back |
| TimeFormat.SplitJoin | public/js/view-appointments.js:236 | splitting a join of colon-free fields gives the fields back |
| TimeFormat.ParseIntPrefix | public/js/view-appointments.js:237 | on a text without a "0x" prefix, `parseInt` is NaN exactly when the text does not start with a digit |
| TimeFormat.ToClock12 | public/js/view-appointments.js:236-239 | the 12-hour value is always in 1..12; PM needs a parsed hour |
| TimeFormat.Render | public/js/view-appointments.js:240 | the text ends with "AM" or "PM" according to the reading |
| TimeFormat.RenderFields | public/js/view-appointments.js:240 | the rendered text splits back into the 12-hour value and the minutes copied unchanged |
| TimeFormat.TwelveHourCases | public/js/book-appointment.js:181-185 | hour 0 is 12 AM, 1-11 are AM, 12 is 12 PM, 13-23 are h-12 PM; the reading stands for the same hour |
| TimeFormat.Hour12 | public/js/view-appointments.js:239 | the hour modulo 12, or 12 when that is 0 or NaN, is always in 1..12 |
| TimeFormat.ReadHour | public/js/view-appointments.js:238-239 | for hours 0..23: 0 is 12, 1-12 stay, 13-23 lose 12, and the reading stands for the same hour |
| TimeFormat.ReadFields | public/js/view-appointments.js:236-239 | a text of digits, ':' and a rest reads as those digits' hour and the rest's first field as minutes |
| TimeFormat.FormatTime12 | public/js/view-appointments.js:234-244 | the text always ends in AM or PM; on an "HH:MM" time it ends in PM exactly from noon on |
| TimeFormat.ParsedAfterNoon | public/js/view-appointments.js:238 | an "HH:MM" time reads as PM exactly when it is noon or later |
| TimeFormat.FormatTimeText | public/js/view-appointments.js:234-244 | the "HH:MM" slot text and the "HH:MM:SS" column text of a time both read as its hour, PM exactly from noon, with its minutes copied |
| TimeFormat.ColumnAndSlotAgree | public/js/book-appointment.js:179-190 | a TIME column text and its slot text format identically |
| AppointmentView.CanModify | public/js/view-appointments.js:73 | the reschedule and cancel buttons are shown exactly on appointments that are neither completed nor canceled |
| AppointmentView.OfferedExactlyWhenAccepted | public/js/view-appointments.js:73 | on the patient's own appointment the buttons are shown exactly when the guarded reschedule (server.js:1598) and the cancel (server.js:419) accept; the reschedule that runs (server.js:377) also accepts closed appointments |
| BookingForm.BreakOf | public/js/book-appointment.js:196-197 | a break window exists exactly when both bounds are times, and it runs from the first to the second |
| BookingForm.GenerateTimeSlots | public/js/book-appointment.js:192-213 | the loop returns the texts of the break-skipping grid; an unparseable start or end gives no slot; every slot reads as a time from start up to end, and none inside a given break |
| BookingForm.SlotsSkipBreak | public/js/book-appointment.js:199-210 | on the page's own text inputs, every offered slot reads as a time in [start, end), and none in [breakStart, breakEnd) when both break bounds are times |
| BookingForm.WalkSlots | public/js/book-appointment.js:199-210 | the loop emits the texts of the candidate times, jumping to the break's end inside the break |
| BookingForm.BreakGrid | public/js/book-appointment.js:199-210 | every time the loop emits lies between the current candidate and end, end excluded |
| BookingForm.Bounds | public/js/book-appointment.js:199 | every slot lies between start and end, end excluded; start >= end gives no slot |
| BookingForm.FirstSlot | public/js/book-appointment.js:201-205 | the first slot is the start, or the break's end when the start lies in the break |
| BookingForm.AvoidsBreak | public/js/book-appointment.js:201-205 | no slot lies in [breakStart, breakEnd) |
| BookingForm.Steps | public/js/book-appointment.js:208-209 | consecutive slots strictly increase and differ by the duration, unless that candidate fell in the break and the next slot is exactly the break's end |
| BookingForm.NoBreakIsServerGrid | public/js/book-appointment.js:192-213 | without a break and with 30-minute steps the page's grid is the server's grid |
| BookingForm.MorningWithBreak | public/js/book-appointment.js:201-205 | 09:00-11:00 by 30 with a 10:00-10:30 break gives 09:00, 09:30, 10:30 |
| DoctorProfile.ToLower | public/js/doctor/profile.js:113 | lower-casing keeps the length and folds each ASCII capital |
| DoctorProfile.WorkingDays | public/js/doctor/profile.js:99-101 | a value is a working day exactly when some checked box has it |
| DoctorProfile.ScheduleOfDays | public/js/doctor/profile.js:111-117 | the built schedule's keys are exactly the lower-cased working days; unchecked days are absent |
| DoctorProfile.ScheduleOfDistinct | public/js/doctor/profile.js:111-117 | no key of the built schedule occurs twice |
| DoctorProfile.ScheduleOfHours | public/js/doctor/profile.js:112-116 | every entry carries the same start and end; the schedule is empty exactly when no day is checked |
| DoctorProfile.FindBox | public/js/doctor/profile.js:70 | `getElementById` finds the first box with the id, or none when no box has it |
| DoctorProfile.PasswordMismatch | public/js/doctor/profile.js:152-158 | the update is refused, with "New passwords do not match", exactly when the two passwords differ |
| DoctorProfile.ProfileForm.Save | public/js/doctor/profile.js:98-117 | an empty start or end fails with "Please set working hours"; otherwise the schedule of the checked days with the two field values |
| DoctorProfile.ProfileForm.Load | public/js/doctor/profile.js:62-80 | after clearing, exactly the boxes found for the schedule's keys are checked; each field holds the last non-empty value read, or its earlier value |
| DoctorProfile.LoadStep | public/js/doctor/profile.js:69-73 | reading one more entry checks exactly the box found for its day |
| DoctorProfile.RoundTripChecks | public/js/doctor/profile.js:63-73 | loading what saving built checks the same boxes again |
| DoctorProfile.RoundTripHours | public/js/doctor/profile.js:74-80 | loading what saving built restores start and end whenever a day was checked |
| PatientAge.AgeInYears | public/js/doctor/patients.js:122-126 | the age is the year difference or one less, and it is never negative for a birth date not after today |
| PatientAge.AgeCountsAnniversaries | public/js/doctor/patients.js:122-126 | the age is the number of birthdays reached: the age-th anniversary is not after today and the next one is |
| PatientAge.AgeCases | public/js/doctor/patients.js:124-126 | the age is the year difference when this year's birthday is reached or today, and one less exactly when it is still ahead |
| PatientAge.AgeNotNegative | public/js/doctor/patients.js:122-126 | a birth date not after today gives an age of at least 0 |
| PatientAge.CalculateAge | public/js/doctor/patients.js:127 | the text ends with " years" |
| PatientAge.AgeTextReadsBack | public/js/doctor/patients.js:127 | the text before " years" is the decimal age |

## Left out

- HTTP and Express plumbing are not modelled: status codes, JSON bodies, authentication middlewares, JWT and bcrypt. The requester's id is a method parameter.
- Transactions, the connection pool and concurrent requests are not modelled. Each handler body is one atomic method, so the race between the slot check and the insert is out of scope.
- The database's foreign keys, column types and other checks are not modelled.
- The schema file is not part of this model. The unguarded insert at server.js:154-168 names no status, and the model takes the column default to be 'scheduled'.
- Locale and time zone are not modelled. `toLocaleDateString` and the UTC reading of "YYYY-MM-DD" are replaced by a numeric day of the week over (year, month, day). Dates before year 1 count as invalid.
- Appointments.Clinic.CheckSlot: looks the weekday up by its name. The source passes the invalid option `{ weekday: 'lowercase' }` at server.js:1351, which throws, so past the doctor lookup the source answers 500 instead.
- The second available-slots route (server.js:315-350) is not modelled as a route. It is shadowed by the one at 185, and it passes the same invalid option at 331. Its helper `generateTimeSlots` is modelled.
- Clock.ParseTime: accepts only zero-padded "HH:MM". Other texts that `new Date` or MySQL would accept are not modelled, such as "9:30", seconds, or "24:00".
- TimeFormat.ParseIntPrefix: does not model leading blanks, a sign, or a 0x prefix (read as hexadecimal), which `parseInt` skips or reads. Time texts never carry them.
- TimeFormat.ToClock12: a `null` time (which makes `split` throw and return the input) is not modelled. Inputs are texts.
- DoctorProfile.ToLower: folds ASCII letters only.
- WeeklySchedule: schedule values that are not `{start, end}` string pairs (numbers, nested objects) are not modelled.
- PatientAge.AgeInYears: an unparseable birth date (giving "NaN years") and the time-zone shift of `new Date("YYYY-MM-DD")` are not modelled. Today's date is a parameter.
- BookingForm.GenerateTimeSlots: requires a positive duration, since the source's loop never ends otherwise. A daylight-saving jump inside 2000-01-01 is not modelled.
- The hospital search (floating point), statistics endpoints, file uploads, DOM and localStorage code, seed scripts and the signup page's copy of the schedule builder are not modelled.

## Findings

| source | as written | input that shows it | evidently intended | confidence | as-written member | corrected member |
|---|---|---|---|---|---|---|
| server.js:154-168 | `POST /api/appointments` is registered first, so Express runs this handler; it inserts without checking the doctor or whether the slot is already scheduled | book doctor 7 on a date at 09:00 twice: two scheduled rows hold one slot | the guarded handler at server.js:1371-1425: refuse a missing doctor or a taken slot | high if the status column defaults to 'scheduled', which the schema (not part of this model) would settle; public/js/doctor/appointments.js:106 and 125-126 fall back to 'scheduled' for a missing status, which hints the default may be NULL, in which case the two rows are not both scheduled (not executed) | Appointments.BookUnguardedTwice | Appointments.Clinic.Book |
| server.js:377-416 | the first-registered reschedule checks only the owner: no status guard and no conflict check, shadowing the guarded copies at 627 and 1598 | reschedule appointment 2 onto the slot of scheduled appointment 1, or reschedule a completed appointment | the guarded handler at server.js:1598-1654 | high (not executed) | Appointments.UnguardedRescheduleBreaksInvariants | Appointments.Clinic.Reschedule |
| server.js:365 | `generateTimeSlots` compares the TIME value "09:30:00" with the slot "09:30" by `===`, which never matches. Its only caller is the `GET /api/available-slots` handler at server.js:315-350, which the handler at server.js:185 shadows and which throws at server.js:331 before the call, so the faulty comparison is in code that never runs | a scheduled appointment at 09:30 on a 09:00-11:00 day: 09:30 is still offered | compare the first five characters, as server.js:249 does | high that the comparison never matches; the code is unreachable today (not executed) | SlotGrid.BookedSlotStillOffered | SlotGrid.GenerateTimeSlots |
