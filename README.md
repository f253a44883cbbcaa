# Appointment scheduling engine of api-nocountry, in Dafny

This project models the core of a clinic's booking API. It is written in TypeScript with
Express, zod and MySQL. The model covers five parts.

- **Weekly availability rules.** A doctor's working hours for one weekday: work window,
  rest window, and slot period in minutes. They live in the `availabilities` table.
  The availability service turns each rule into the week's time slots (`generateTimeSlots`).
- **Appointments.** Rows of the `appointments` table, with a status of `confirmado`,
  `cancelado`, `completado` or `ausente`. The appointment service checks a booking
  before inserting it: the doctor exists, the patient exists, the slot lies inside the
  rule, and the slot is not yet taken. It also lists a day's free slots
  (`generateAvailableSlots`), changes statuses, and completes consultations.
- **The zod schemas** that validate request bodies: availability, appointment,
  medical history, user, doctor and patient.
- **The HTTP decisions** of the appointment controller: how a thrown error becomes a
  status code, the `day` guard, and the three status actions. Also the role gate of
  the permission middleware.
- **The public-id extraction** that `deleteImage` performs on a Cloudinary URL.

## How the model is built

**Times.** A time is an integer count of seconds since midnight. The source computes
fractional minutes (`h * 60 + m + s / 60`) as floating-point numbers; the model counts
the same quantity scaled by 60, in whole seconds, with integer arithmetic. A rule's `period_time` is in minutes; the walk steps by
`60 * period_time` seconds.

**Tables and services as classes.** The two tables are classes (`AppointmentTable`,
`AvailabilityTable`). Each holds its rows as a `seq` field together with the next
`AUTO_INCREMENT` value, and each repository method is a `method` that changes them.
The two services are classes that hold the tables and the identifiers the doctor and
patient repositories know.

**Loops.** The slot loops of both services are `method`s with `while`/`for` loops. Each
is proved equal to a recursive specification function (`FreeStarts`, `Starts`,
`SlotsByDay`). Bounds, order, rest exclusion, reservation exclusion and a reference
description are proved about those functions.

**Schemas.** A schema is a function from a JSON object (`Schema.Value`) to `Ok(value)`
or `Err(issues)`. An issue is reduced to its path.

**Parameters and simplifications.**
- The following are parameters: the weekday dayjs computes for a date, the result of
  `z.email()`, the `Date` preprocessing of `dateOfBirth`, and the outcome of
  Cloudinary's `destroy`.
- MySQL is reduced to the foreign-key refusals that the handler classifies.
- The Spanish and English messages are the source's own text.

## Model

| member | source | states |
|---|---|---|
| AppointmentTime.CanonicalSeconds | src/services/appointment.ts:14-21 | `timeToMinutes` reads a canonical "HH:MM:SS" as the seconds its digits spell, below 100 hours |
| AppointmentTime.SinglePartIsZero | src/services/appointment.ts:16-17 | every string without ':' (a single part) reads as 0 |
| AppointmentTime.NonNumericPartIsZero | src/services/appointment.ts:16-17 | for any parts joined with ':', one part that `Number` reads as NaN makes the whole time 0 |
| AppointmentTime.HoursAndMinutes | src/services/appointment.ts:18-25 | for all decimal H and M, "H:M" is H hours and M minutes (missing seconds count as 0); every negative time renders as "00:00:00" |
| AppointmentTime.RenderedDigits | src/services/appointment.ts:26-30 | `minutesToTime` writes hours, minutes and seconds as two zero-padded digits joined by ':' |
| AppointmentTime.SecondsRoundTrip | src/services/appointment.ts:14-32 | every time below 100 hours renders canonically and reads back as itself |
| AppointmentTime.TimeRoundTrip | src/services/appointment.ts:14-32 | a canonical "HH:MM:SS" reads and renders back to the same text |
| AppointmentTime.CanonicalOrder | src/services/appointment.ts:84-88 | on canonical times, JavaScript string order is time order and string equality is time equality |
| AppointmentTime.RenderedOrder | src/services/appointment.ts:26-30 | the rendered strings of two times below 100 hours compare exactly as the times do |
| AppointmentTime.WorkedExampleText | src/services/appointment.ts:23-32 | 09:00, 12:30 and 13:00 render as "09:00:00", "12:30:00", "13:00:00" |
| AppointmentSlots.Advance | src/services/appointment.ts:219-225 | the cursor strictly increases; after a slot that misses the rest window it moves exactly one period |
| AppointmentSlots.FreeStarts | src/services/appointment.ts:197-226 | every kept slot starts at or after the cursor, ends by the work end, misses the rest window and is unreserved; kept starts are at least one period apart |
| AppointmentSlots.Render | src/services/appointment.ts:200-214 | one `{start, end}` per kept start, in order, with the end one period after the start |
| AppointmentSlots.OverlapsRestIff | src/services/appointment.ts:204-208 | for a rest window that is not inverted, the three-way test is `start < restEnd && end > restStart`, so a slot ending exactly at the rest start is kept |
| AppointmentSlots.InvertedRestDropsSlot | src/services/appointment.ts:204-208 | with rest end before rest start, the three-way test still drops a slot |
| AppointmentSlots.ReservedOnlyFilters | src/services/appointment.ts:188-210 | the walk with reservations is the walk without them, filtered by the start's text not being reserved |
| AppointmentSlots.UnmatchedReservationsRemoveNothing | src/services/appointment.ts:189-210 | a reservation whose start text is not a generated start removes nothing (only exact starts are compared, not overlaps) |
| AppointmentSlots.GridShape | src/services/appointment.ts:199-200 | the plain grid has one start per whole period between the bounds, with no trailing partial slot |
| AppointmentSlots.Afternoon | src/services/appointment.ts:219-225 | from the rest end on, every period-long step is kept |
| AppointmentSlots.KeptStep | src/services/appointment.ts:210-220 | a kept start is followed by the walk from its end |
| AppointmentSlots.SkippedStep | src/services/appointment.ts:221-222 | a start that touches the rest window is dropped and the cursor jumps to the rest end |
| AppointmentSlots.Morning | src/services/appointment.ts:197-226 | before the rest end, the walk is the grid up to the rest start followed by the grid from the rest end |
| AppointmentSlots.Reference | src/services/appointment.ts:197-226 | the walk without reservations equals an independent grid description: the grid before the rest window, then the grid after it |
| AppointmentSlots.WorkedExample | src/services/appointment.ts:197-226 | 09:00-17:00 with rest 13:00-14:00 and period 30 gives 8 slots 09:00…12:30, then 6 slots 14:00…16:30 |
| AppointmentService.SlotIntegrity | src/services/appointment.ts:79-92 | a slot passes iff the rule exists, the slot lies in the working hours and it does not overlap the rest window, all by string comparison; a missing rule and out-of-hours give their messages |
| AppointmentService.FirstOn | src/services/appointment.ts:182 | `find` gives the first rule of that weekday in the list (no earlier rule falls on that day), and nothing iff the list has none |
| AppointmentService.FirstOnStartsEarliest | src/services/appointment.ts:181-182 | in a weekday-then-start-ordered list, the rule found starts no later than any other rule of that day |
| AppointmentService.RuleFor | src/services/appointment.ts:181-186 | the rule used is the doctor's rule for that weekday with the earliest start, and there is none iff the doctor has no rule that day |
| AppointmentService.NoRuleNoSlots | src/services/appointment.ts:184-186 | a known doctor with no rule for the weekday gets `[]` |
| AppointmentService.RuleWindow | src/services/appointment.ts:191-195 | the numbers the walk reads from a rule with canonical times are the values of those times |
| AppointmentService.GeneratedSlotsPassIntegrity | src/services/appointment.ts:197-226 | every generated slot passes `verifySlotIntegrity` (lines 84-91 of the same file) against its own rule |
| AppointmentService.GeneratedSlotsLastOnePeriod | src/services/appointment.ts:199-214 | every generated slot's end minus start is the rule's period |
| AppointmentService.GeneratedSlotsAscend | src/services/appointment.ts:199-225 | generated start strings strictly increase |
| AppointmentService.GeneratedSlotsAreFree | src/services/appointment.ts:188-210 | no generated slot starts where `isSlotBooked` would report a booking |
| AppointmentService.CompletionAccepted | src/services/appointment.ts:278-298 | completion proceeds iff the appointment exists, is `confirmado`, matches the consultation's doctor and patient, and any summary is for that patient |
| AppointmentService.CompletionIgnoresSummaryDate | src/services/appointment.ts:291-294 | the summary date plays no part in the decision; a blocked slot (no patient) can never be completed |
| AppointmentService.OwnerMissing | src/services/appointment.ts:115-122 | a listing is refused iff its doctor or patient is unknown |
| AppointmentService.Service.CreateAppointment | src/services/appointment.ts:98-107 | checks doctor, patient, slot integrity and `isSlotBooked` in that order, each refusal with its own error; when all four pass the row is inserted and returned; any refusal leaves the table unchanged; single booking is preserved |
| AppointmentService.Service.BlockSlot | src/services/appointment.ts:231-248 | checks only the doctor and `isSlotBooked`, then inserts the block, which succeeds whenever its availability rule exists; single booking is preserved |
| AppointmentService.Service.GetAppointmentById | src/services/appointment.ts:108-114 | the stored row, or "Appointment not found" iff no row has the id |
| AppointmentService.Service.ListAppointments | src/services/appointment.ts:115-122 | unknown owner is refused; otherwise `total` counts every listed row and the page holds at most `limit` of them |
| AppointmentService.Service.UpcomingAppointment | src/services/appointment.ts:123-126 | unknown patient is refused; otherwise the earliest upcoming confirmed row, or none iff there is none |
| AppointmentService.Service.UpdateAppointment | src/services/appointment.ts:132-149 | unknown doctor refused, then unknown patient; with a patched rule a missing row is "Appointment not found" and a merged slot outside the rule gets the integrity error; otherwise exactly the patched columns change, with no new booking check |
| AppointmentService.Service.UpdateAppointmentStatus | src/services/appointment.ts:150-158 | the row's status is overwritten whatever it was; "Appointment not found" iff no row has the id |
| AppointmentService.Service.DeleteAppointment | src/services/appointment.ts:159-167 | a missing row is "Appointment not found"; success removes exactly that row |
| AppointmentService.Service.CompleteConsultation | src/services/appointment.ts:272-307 | the store is called iff `CompletionCheck` passes on the stored appointment; a refusal raises its message and changes nothing; success records the detail, appends any summary and marks the row `completado` |
| AppointmentService.Service.GenerateAvailableSlots | src/services/appointment.ts:170-229 | the loop returns exactly the slots of `AvailableSlots` (doctor check, invalid date, no rule gives `[]`, walk with reservations) |
| AppointmentService.Walk | src/services/appointment.ts:197-226 | the cursor loop returns the rendering of `FreeStarts` |
| AppointmentService.PatchedDoctor | src/services/appointment.ts:133 | the value of the patch's last doctor entry when it is non-zero; none iff there is no doctor entry or the last one is 0 |
| AppointmentService.PatchedPatient | src/services/appointment.ts:134 | the value of the patch's last patient entry when it is non-zero; none iff there is no patient entry or the last one is 0 |
| AppointmentRepository.Find | src/repositories/appointment.ts:96-103 | the row with that id, and none iff no row has it |
| AppointmentRepository.SlotBooked | src/repositories/appointment.ts:290-298 | booked iff some row has the same doctor, day and start time and a reserving status |
| AppointmentRepository.OrdersAreTotalPreorders | src/repositories/appointment.ts:152 | the three `ORDER BY` orders (this one and those at lines 212 and 314) are total preorders |
| AppointmentRepository.Reserved | src/repositories/appointment.ts:307-331 | exactly the doctor's reserving rows of that day, ordered by start time |
| AppointmentRepository.ReservedMatchesBooked | src/repositories/appointment.ts:290-318 | `isSlotBooked` holds iff a reserved row has that exact start time |
| AppointmentRepository.Matching | src/repositories/appointment.ts:135-186 | exactly the owner's rows (with the status filter), newest first, as many as the filter counts |
| AppointmentRepository.PageOf | src/repositories/appointment.ts:152 | a page has at most `limit` rows, all from the list |
| AppointmentRepository.PagesArePrefixes | src/repositories/appointment.ts:152-186 | pages 1…k cut from one fixed list are its first k·limit rows, with no row skipped or repeated |
| AppointmentRepository.ListPage | src/repositories/appointment.ts:135-200 | `total` counts all matching rows; the page is the offset `(page-1)*limit` slice of them, sorted newest first |
| AppointmentRepository.NextAppointment | src/repositories/appointment.ts:203-224 | the earliest confirmed, not-yet-past row of the patient, or none iff there is none |
| AppointmentRepository.MissingParent | src/repositories/appointment.ts:68-93 | a row is refused iff one of its foreign keys names a missing parent |
| AppointmentRepository.SetStatus | src/repositories/appointment.ts:227-234 | only the status of row `id` changes; every other row is untouched |
| AppointmentRepository.Without | src/repositories/appointment.ts:273-280 | exactly the rows with another id remain |
| AppointmentRepository.ApplyField | src/repositories/appointment.ts:244-257 | one assignment sets its column and leaves every other column, the id and the status alone |
| AppointmentRepository.PatchSemantics | src/repositories/appointment.ts:244-263 | an update sets exactly the supplied columns, to the last value supplied for each |
| AppointmentRepository.InsertKeepsSingleBooking | src/services/appointment.ts:102-106 | inserting a row whose slot is free (or that does not reserve) keeps every slot single-booked |
| AppointmentRepository.ReleaseKeepsSingleBooking | src/repositories/appointment.ts:227-234 | setting a non-reserving status never creates a double booking |
| AppointmentRepository.RemovalKeepsSingleBooking | src/repositories/appointment.ts:273-280 | deleting never creates a double booking |
| AppointmentRepository.ConfirmCanDoubleBook | src/controllers/appointment.ts:195-212 | confirming a cancelled row whose slot was re-booked breaks single booking: no transition rule guards it |
| AppointmentRepository.MoveCanDoubleBook | src/services/appointment.ts:132-149 | moving a confirmed row onto another's start time breaks single booking: the update does not re-check the slot |
| AppointmentRepository.AppointmentTable.GetById | src/repositories/appointment.ts:96-103 | the stored row with that id, or null iff none |
| AppointmentRepository.AppointmentTable.IsSlotBooked | src/repositories/appointment.ts:290-298 | true iff a row holds that doctor's slot |
| AppointmentRepository.AppointmentTable.ReservedAppointments | src/repositories/appointment.ts:307-331 | exactly the reserving rows of doctor and day, by start time |
| AppointmentRepository.AppointmentTable.Insert | src/repositories/appointment.ts:68-93 | a foreign-key failure changes nothing; otherwise the row is appended under the next id |
| AppointmentRepository.AppointmentTable.Create | src/repositories/appointment.ts:68-93 | one new row with the seven given fields and status `confirmado`, returned as stored |
| AppointmentRepository.AppointmentTable.InsertBlock | src/services/appointment.ts:247 | a missing parent refuses the block and changes nothing; otherwise it is stored as a new `confirmado` row with no patient under the next id |
| AppointmentRepository.AppointmentTable.UpdateStatus | src/repositories/appointment.ts:227-241 | true iff a row matched; only that row's status changes |
| AppointmentRepository.AppointmentTable.Update | src/repositories/appointment.ts:244-270 | an empty patch or missing row returns the row as is, unchanged; otherwise the patched row replaces it |
| AppointmentRepository.AppointmentTable.Delete | src/repositories/appointment.ts:273-287 | true iff the row existed and was removed; afterwards no row has the id |
| AppointmentRepository.AppointmentTable.CompleteConsultation | src/services/appointment.ts:303 | the transaction appends the detail, appends the summary when given, and sets only that appointment's status to `completado` |
| AvailabilityRepository.Find | src/repositories/availability.ts:104-111 | the row with that id, and none iff no row has it |
| AvailabilityRepository.WeekOrderIsTotalPreorder | src/repositories/availability.ts:126 | `FIELD(day_of_week, …), start_time` is a total preorder |
| AvailabilityRepository.ByDoctor | src/repositories/availability.ts:121-129 | exactly the doctor's rules, Monday to Sunday, then by start time, a permutation of the filtered rows |
| AvailabilityRepository.Replace | src/repositories/availability.ts:139-162 | only row `id` is replaced |
| AvailabilityRepository.Without | src/repositories/availability.ts:172-179 | exactly the rows with another id remain |
| AvailabilityRepository.ApplyField | src/repositories/availability.ts:139-151 | one assignment sets its column and leaves the others and the id alone |
| AvailabilityRepository.PatchSemantics | src/repositories/availability.ts:139-162 | an update sets exactly the supplied columns, to the last value supplied |
| AvailabilityRepository.AvailabilityTable.Create | src/repositories/availability.ts:40-66 | an unknown doctor is refused with nothing inserted; otherwise one row with the seven fields is appended and returned |
| AvailabilityRepository.AvailabilityTable.CreateBulk | src/repositories/availability.ts:69-101 | all-or-nothing: success iff every item's doctor exists, and then every item is stored in input order with consecutive identifiers, yet the answer is the empty list because each read-back runs on another connection before the commit; a failure leaves the table as it was |
| AvailabilityRepository.AvailabilityTable.GetById | src/repositories/availability.ts:104-118 | the row, or null iff no row has the id |
| AvailabilityRepository.AvailabilityTable.AllByDoctor | src/repositories/availability.ts:121-136 | exactly the doctor's rules in weekday-then-start order |
| AvailabilityRepository.AvailabilityTable.Update | src/repositories/availability.ts:139-169 | an empty patch or missing row returns the row as is, unchanged; otherwise exactly the supplied fields are set |
| AvailabilityRepository.AvailabilityTable.Delete | src/repositories/availability.ts:172-186 | true iff the row existed; a referenced row is refused; afterwards no row has the id |
| AvailabilityService.ParseClock | src/services/availability.ts:27-30 | the unguarded reading is a number iff hour and minute are numbers; missing or bad seconds count as 0 |
| AvailabilityService.ParseCanonical | src/services/availability.ts:27-30 | on a canonical "HH:MM:SS" both copies of `timeToMinutes` agree |
| AvailabilityService.ParseShort | src/services/availability.ts:27-30 | "HH:MM" reads as whole hours and minutes in both copies |
| AvailabilityService.Next | src/services/availability.ts:148-154 | the cursor strictly increases, by at least a period after a kept slot |
| AvailabilityService.Starts | src/services/availability.ts:124-155 | every kept slot lies in the working hours and passes the three-way rest test; starts strictly ascend |
| AvailabilityService.UnparsedRestStart | src/services/availability.ts:131-154 | a rest start that does not parse turns the rest test off, yet the jump to rest end can produce overlapping slots |
| AvailabilityService.WalksAgree | src/services/availability.ts:124-155 | with all four times parsed, the walk equals the appointment service's walk without reservations |
| AvailabilityService.RuleSlotsAgree | src/services/availability.ts:113-155 | for canonical times, a rule's slots equal `generateAvailableSlots`'s slots with nothing reserved |
| AvailabilityService.WorkedExampleDay | src/services/availability.ts:124-155 | 09:00-17:00, rest 13:00-14:00, period 30: 8 morning then 6 afternoon slots |
| AvailabilityService.UnparsableHoursGiveNoSlots | src/services/availability.ts:118-127 | a rule whose work start or end does not parse contributes no slot |
| AvailabilityService.SlotsByDayPerDay | src/services/availability.ts:113-116 | a weekday has a key iff some rule falls on it, even if no slot fits; its list is all its rules' slots in repository order |
| AvailabilityService.DaySlotsAppend | src/services/availability.ts:141 | a further rule appends its slots to its own weekday's list only |
| AvailabilityService.LayOut | src/services/availability.ts:111-156 | the outer loop builds exactly `SlotsByDay` of the rules in order |
| AvailabilityService.WalkRule | src/services/availability.ts:124-155 | the inner loop returns exactly the rendering of `Starts` |
| AvailabilityService.RuleWalk | src/services/availability.ts:118-155 | a rule's slots are the walk over its four stored times and its period |
| AvailabilityService.DoctorCheck | src/services/availability.ts:46-51 | passes iff the doctor is known, else "Doctor with ID … not found." |
| AvailabilityService.PatchedDoctor | src/services/availability.ts:78 | the value of the patch's last doctor entry when it is non-zero; none iff there is no doctor entry or the last one is 0 |
| AvailabilityService.Service.CreateAvailability | src/services/availability.ts:57-60 | unknown doctor refused with nothing stored; otherwise one row appended |
| AvailabilityService.Service.CreateBulkAvailabilities | src/services/availability.ts:61-66 | only the first item's doctor is checked (an empty list skips it); a later unknown doctor fails the foreign key and rolls back; all known stores every item in input order and answers with an empty list |
| AvailabilityService.Service.GetAvailabilityById | src/services/availability.ts:67-73 | the row, or "Availability not found" iff none |
| AvailabilityService.Service.UpdateAvailability | src/services/availability.ts:77-90 | unknown patched doctor refused; a missing row gives "Availability not found"; an empty patch returns the row |
| AvailabilityService.Service.DeleteAvailability | src/services/availability.ts:91-101 | a missing row gives "Availability not found"; success removes it |
| AvailabilityService.Service.GenerateTimeSlots | src/services/availability.ts:104-159 | unknown doctor refused; otherwise exactly `SlotsByDay` of the doctor's ordered rules |
| AvailabilityValidation.ParseCreate | src/validations/availability.ts:8-27 | accepted iff every field passes and start < end as strings; a failed order check is the single issue on `end_time` |
| AvailabilityValidation.TimeTextParses | src/validations/availability.ts:6 | a time the pattern accepts reads as a number below 24 h |
| AvailabilityValidation.AcceptedRuleIsWalkable | src/validations/availability.ts:8-27 | an accepted rule, once stored, has a positive period that is a multiple of 5 and parseable times |
| AvailabilityValidation.OneDigitHourRefused | src/validations/availability.ts:6-27 | "9:00" to "10:00" is refused because "9:00" >= "10:00" as strings |
| AvailabilityValidation.RestWindowUnchecked | src/validations/availability.ts:15-27 | a rest window that is inverted and outside the work window passes |
| AvailabilityValidation.UpdateChecks | src/validations/availability.ts:29 | the partial schema's checks all pass iff every supplied field passes |
| AvailabilityValidation.SuppliedValid | src/validations/availability.ts:29 | every entry a passing patch supplies satisfies its field rule |
| AvailabilityValidation.ParseUpdate | src/validations/availability.ts:29 | accepted iff every supplied field passes its check; `.partial()` drops the create schema's start-before-end refinement; an accepted patch yields exactly the supplied entries (`Supplied`) |
| AvailabilityValidation.Entry | src/validations/availability.ts:8-17 | a given declared key yields exactly one entry, which sets that key to the value given (the weekday named, the integer given) and passes the key's check; an absent key yields none |
| AvailabilityValidation.SuppliedKeys | src/validations/availability.ts:29 | an accepted patch has one entry for each of the seven declared keys it gives and none for the others, in declared order |
| AvailabilityValidation.SuppliedCarries | src/validations/availability.ts:29 | each entry of an accepted patch carries the value the patch gives for its key |
| AvailabilityValidation.TimesOnlyPatch | src/validations/availability.ts:29 | a patch of the two times alone passes whenever both have the time format, in either order |
| AvailabilityValidation.InvertedTimesPass | src/validations/availability.ts:18-29 | an end before the start, which the create refinement refuses, passes the update schema |
| AvailabilityValidation.EmptyPatch | src/validations/availability.ts:29 | an empty patch passes and supplies nothing |
| AvailabilityValidation.ValidatedPatchKeepsRule | src/validations/availability.ts:29 | a validated patch keeps a walkable rule walkable |
| AvailabilityValidation.ParseItems | src/validations/availability.ts:31 | an array passes iff every element passes the element schema at its own index; the result has one value per element, each the one that schema gave |
| AvailabilityValidation.ParseBulk | src/validations/availability.ts:31 | the bulk schema accepts an array iff every element passes the create schema |
| AppointmentValidation.CreateChecks | src/validations/appointment.ts:18-25 | the seven checks all pass iff every field passes |
| AppointmentValidation.ParseCreate | src/validations/appointment.ts:18-35 | accepted iff positive ids, date shape, time shapes, consultation type, and start < end; order failure is the single issue on `end_time` |
| AppointmentValidation.UpdateChecks | src/validations/appointment.ts:38 | the partial schema's checks all pass iff every supplied field passes |
| AppointmentValidation.SuppliedValid | src/validations/appointment.ts:38 | every supplied entry of a passing patch satisfies its field rule |
| AppointmentValidation.ParseUpdate | src/validations/appointment.ts:38 | accepted iff every supplied field passes its check; `.partial()` drops the create schema's start-before-end refinement; an accepted patch yields exactly the supplied entries (`Supplied`) |
| AppointmentValidation.Entry | src/validations/appointment.ts:18-25 | a given declared key yields exactly one entry, which sets that key to the value given and passes the key's check; an absent key yields none |
| AppointmentValidation.SuppliedKeys | src/validations/appointment.ts:38 | an accepted patch has one entry for each of the seven declared keys it gives and none for the others, in declared order |
| AppointmentValidation.SuppliedCarries | src/validations/appointment.ts:38 | each entry of an accepted patch carries the value the patch gives for its key |
| AppointmentValidation.TimesOnlyPatch | src/validations/appointment.ts:38 | a patch of the two times alone passes whenever both have the time format, in either order |
| AppointmentValidation.InvertedTimesPass | src/validations/appointment.ts:26-38 | an end before the start, which the create refinement refuses, passes the update schema |
| AppointmentValidation.EmptyPatch | src/validations/appointment.ts:38 | an empty patch passes and supplies nothing |
| AppointmentValidation.ParseStatusUpdate | src/validations/appointment.ts:41-43 | accepted iff the status is one of the four names of the enum at lines 9-11, and the result has that name |
| AppointmentValidation.StatusNames | src/validations/appointment.ts:9-11 | each status is accepted under its own name |
| AppointmentValidation.Counter | src/validations/appointment.ts:48-49 | absent or empty gives the default; otherwise `parseInt`'s value, which must be a safe integer of at least 1 |
| AppointmentValidation.UnsafePageRefused | src/validations/appointment.ts:48 | a page number above 2^53 - 1 is refused by `.int()` |
| AppointmentValidation.ParseFilter | src/validations/appointment.ts:46-50 | page and limit are at least 1; the status is absent iff not given |
| AppointmentValidation.FilterDefaults | src/validations/appointment.ts:48-49 | no parameters, or empty ones, give page 1 and limit 10 |
| AppointmentValidation.FilterReadsLeadingDigits | src/validations/appointment.ts:48 | "3abc" reads as page 3 and "0" is refused |
| AppointmentValidation.BlockSlotChecks | src/validations/appointment.ts:52-58 | the checks all pass iff every block field passes |
| AppointmentValidation.ParseBlockSlot | src/validations/appointment.ts:52-67 | accepted iff the fields pass and start < end; `reason` optional |
| AppointmentValidation.BlockSlotIgnoresPatient | src/validations/appointment.ts:52-58 | a patient or consultation type in the body changes nothing |
| AppointmentValidation.SameOrderRule | src/validations/appointment.ts:26-66 | creation and blocking refuse the same time pairs, with the issue on `end_time` |
| MedicalHistoryValidation.ParseSummary | src/validations/medical_history.ts:9-18 | accepted iff every field passes; the parsed summary keeps the positive patient id, the dddd-dd-dd date, the positive vitals and pressures and a listed blood type, each optional one `None` when absent or null |
| MedicalHistoryValidation.ParseDetail | src/validations/medical_history.ts:21-30 | accepted iff every field passes; the parsed detail keeps the three positive ids, the non-empty reason and diagnosis, and `description`, `instructions` and `notes` exactly when given |
| MedicalHistoryValidation.Under | src/validations/medical_history.ts:33-35 | nested issues keep their order and gain the parent key in front |
| MedicalHistoryValidation.ParsePayload | src/validations/medical_history.ts:33-45 | accepted iff both parts pass and a present summary is for the consultation's patient; the summary is present iff given |
| MedicalHistoryValidation.MismatchedSummaryRefused | src/validations/medical_history.ts:36-45 | a summary for another patient gives the single issue at `summary.patient_id` |
| MedicalHistoryValidation.SummaryOptional | src/validations/medical_history.ts:35 | without a summary only the consultation is checked |
| MedicalHistoryValidation.SummaryDateShapeOnly | src/validations/medical_history.ts:4-11 | month 13 and day 40 pass the date check |
| AccountValidation.Utf16Length | src/validations/user.ts:4 | the length `.{8,}` counts lies between the character count and twice it, and equals it for basic-plane text |
| AccountValidation.DotsToEndIff | src/validations/user.ts:4 | `.*$` matches iff no line terminator occurs |
| AccountValidation.FindsIff | src/validations/user.ts:4 | a lookahead `(?=.*[cls])` succeeds iff a character of the class occurs before any line terminator |
| AccountValidation.PasswordRegexIff | src/validations/user.ts:3-4 | the pattern accepts exactly passwords of at least 8 code units, on one line, with an A-Z letter, a digit and a listed special |
| AccountValidation.PaddedPasswordNeverConfirmed | src/validations/user.ts:15-19 | a password starting or ending with a blank can never match the trimmed repetition |
| AccountValidation.RepeatMayBePadded | src/validations/user.ts:15-19 | a repetition with a trailing blank still confirms the password |
| AccountValidation.Refined | src/validations/user.ts:16-19 | the refinement passes iff fields pass and the passwords match; a mismatch is the issue at `repeatPassword` |
| AccountValidation.ParseUserCreate | src/validations/user.ts:6-19 | accepted iff names non-empty, e-mail valid, password rule, repeat non-empty after trim and equal to the password; mismatch issue at `repeatPassword` |
| AccountValidation.ParseUserUpdate | src/validations/user.ts:26-30 | accepted iff both names are non-empty and the e-mail is valid |
| AccountValidation.ParseDoctorCreate | src/validations/doctor.ts:6-22 | accepted iff the user fields and the doctor fields pass and the passwords match; the same user as `UserCreateSchema` would give |
| AccountValidation.ParseDoctorUpdate | src/validations/doctor.ts:24-41 | accepted iff id is a number and names non-empty; no password or e-mail fields |
| AccountValidation.DoctorUpdateIgnoresCredentials | src/validations/doctor.ts:29-40 | a password, e-mail or licence in the body changes nothing |
| AccountValidation.ParseDoctorByAdmin | src/validations/doctor.ts:43-51 | accepted iff licence non-empty and specialty at least 1, with no password |
| AccountValidation.EmptyLicenceOnlyOnSignUp | src/validations/doctor.ts:16-48 | an empty licence passes sign-up but not the administrator's schema |
| AccountValidation.ParsePatientCreate | src/validations/patient.ts:6-25 | accepted iff the user rules pass, `dateOfBirth` is a date and the passwords match; the issue at `repeatPassword` |
| AppointmentController.FkText | src/controllers/appointment.ts:40-51 | the message names the first of `availability_id`, `doctor_id`, `patient_id` the server message contains, else the generic one |
| AppointmentController.HandleServiceError | src/controllers/appointment.ts:23-56 | 404 with its message iff the message says "not found"; then 409 iff exactly `SLOT_ALREADY_BOOKED`; then 404 for a foreign-key error; otherwise 500 |
| AppointmentController.MissingOwnersAre404 | src/controllers/appointment.ts:27-30 | the doctor and patient not-found errors are 404s showing their message |
| AppointmentController.MissingAppointmentIs404 | src/controllers/appointment.ts:27-30 | "Appointment not found" is a 404 showing its message |
| AppointmentController.SlotTakenIs409 | src/controllers/appointment.ts:31-33 | a taken slot is a 409 with the fixed Spanish text |
| AppointmentController.BusinessRejectionsAre500 | src/controllers/appointment.ts:55 | the out-of-hours and rest-overlap errors (src/services/appointment.ts lines 86 and 90) and the invalid-date error are 500s: their messages lack "not found" |
| AppointmentController.ForeignKeysAre404 | src/controllers/appointment.ts:38-52 | each of the three missing parents is a 404 naming its column |
| AppointmentController.NotFoundComesFirst | src/controllers/appointment.ts:27-30 | a "not found" message wins even over a foreign-key error |
| AppointmentController.FirstColumnWins | src/controllers/appointment.ts:44-51 | with several columns named, `availability_id` wins |
| AppointmentController.SlotsEndpoint | src/controllers/appointment.ts:154-173 | 400 unless `day` is a string of the dddd-dd-dd shape; otherwise the service's slots or its classified error |
| AppointmentController.BadDaySkipsService | src/controllers/appointment.ts:160-162 | a bad `day` gives 400 whatever the service would do |
| AppointmentController.WellShapedDayNever500 | src/controllers/appointment.ts:160-170 | when the date reader reads every well-shaped day (dayjs rolls "2024-13-45" over), the endpoint answers the slots, or 404 for an unknown doctor, never the invalid-date 500 |
| AppointmentController.UnknownDoctorIs404 | src/controllers/appointment.ts:154-173 | an unknown doctor gives 404 with "Doctor with ID … not found." |
| AppointmentController.ActionStatus | src/controllers/appointment.ts:210-212 | the actions set `cancelado`, `completado`, `confirmado`; never `ausente` |
| AppointmentController.ActionsDistinct | src/controllers/appointment.ts:210-212 | different actions set different statuses |
| AppointmentController.ActionReply | src/controllers/appointment.ts:196-206 | success replies "Cita marcada como '<status>'."; failure is classified |
| AppointmentController.UpdateStatusAction | src/controllers/appointment.ts:195-212 | the row's status is overwritten; 200 iff the row exists, else 404 "Appointment not found" |
| PermissionRole.RoleGate | src/middleware/permission_role.ts:5-18 | exactly one effect; `next()` iff a user is present and their role is listed; 401 without user, 403 for an unlisted role |
| PermissionRole.EmptyRolesForbidEveryone | src/middleware/permission_role.ts:14-16 | with no roles listed, every signed-in user gets 403 |
| PermissionRole.MoreRolesNeverRefuseMore | src/middleware/permission_role.ts:14 | listing more roles never turns a pass into a refusal |
| PermissionRole.NoUserIsUnauthorized | src/middleware/permission_role.ts:10-12 | without a user the answer is 401 and `next()` is not called |
| Image.SliceFrom | src/utils/image.ts:36 | `slice(start)` is the suffix from `start`, empty past the end |
| Image.PublicIdWithExt | src/utils/image.ts:35-36 | the id's '/'-segments are exactly the URL's segments from two after `upload`; empty when none remain |
| Image.StripExtension | src/utils/image.ts:38 | removes exactly the match of `/\.[^/.]+$/` when there is one, and nothing otherwise |
| Image.DeleteImage | src/utils/image.ts:33-44 | succeeds iff destroying the extracted id succeeds; every failure is "Image deletion failed" |
| Image.UploadPath | src/utils/image.ts:35-36 | for an upload URL, the id is the path after the version segment |
| Image.NoUploadDropsFirst | src/utils/image.ts:36 | without `upload`, `indexOf` is -1 and only the first segment is dropped |
| Image.StripsLastExtension | src/utils/image.ts:38 | only the final extension goes |
| Image.TwoDotsKeepOne | src/utils/image.ts:38 | "a.b.c" becomes "a.b" |
| Image.DotInFolderKept | src/utils/image.ts:38 | a dot before the last '/' is not an extension |
| Schema.FieldIssues | src/validations/availability.ts:8-17 | no issue iff every field passes; each issue names a failing field |
| Schema.TimeTextIff | src/validations/availability.ts:6 | `timeRegex` accepts exactly hour 0-23 in one or two digits, minutes 00-59, and optional seconds 00-59 |
| Schema.DateTextIff | src/validations/appointment.ts:4 | `dateRegex` accepts exactly four digits, '-', two digits, '-', two digits |
| Schema.UnsafeIdRefused | src/validations/availability.ts:9 | `.int()` refuses an integer above 2^53 - 1, such as 10^16, and accepts 2^53 - 1 itself |
| Schema.DateOutOfRange | src/validations/appointment.ts:4-22 | "2024-13-45" has the date format |
| Models.WeekdayNames | src/database/db_connection.ts:198 | each weekday is recognised by its own name and the `FIELD` positions are distinct |
| Models.EnumNames | src/models/appointment.ts:6-11 | each status and consultation type is recognised by its own name |
| Messages.RejectionsLackNotFound | src/services/appointment.ts:86-177 | the out-of-hours, rest-overlap, invalid-date and booking messages do not contain "not found" |
| Messages.FkMessageNamesColumn | src/controllers/appointment.ts:38-51 | the server's refusal for a foreign key names that column and lacks "not found" |
| Js.IncludesIff | src/controllers/appointment.ts:27 | `includes` holds iff the text occurs at some position |
| Js.JoinSplit | src/utils/image.ts:35-36 | joining a split gives the string back; no piece holds the separator |
| Js.SplitJoin | src/utils/image.ts:35-36 | splitting a join of separator-free pieces gives the pieces back |
| Js.StrLtTotal | src/services/appointment.ts:84-88 | JavaScript string `<` is total on distinct strings |
| Js.StrLtTransitive | src/services/appointment.ts:84-88 | JavaScript string `<` is transitive |
| Js.Trim | src/validations/user.ts:15 | `trim()` gives the middle of the string, cut only of blanks at the front and at the back, and leaves no blank at either end |
| Js.ParseIntOfIntToString | src/validations/appointment.ts:48-49 | `parseInt` reads back the decimal text of an integer |

## Left out

- I/O, the MySQL connection pool, transactions under concurrency: the model is sequential. The
  check-then-insert race between `isSlotBooked` and the insert is not expressible.
- dayjs: the weekday dayjs reads from a date is a parameter (`Option<Weekday>`); its rolling over
  of out-of-range months and days is an assumption of `WellShapedDayNever500`, not modelled.
- `z.email()` and the `Date` preprocessing of `dateOfBirth` are parameters (library internals).
- Cloudinary `upload`/`destroy`: the outcome of `destroy` is a parameter; `uploadImage` is not
  modelled.
- JavaScript `Number(...)` is modelled for "", optional sign plus decimal digits, and otherwise
  `NaN`; surrounding whitespace, decimals, exponents, radix prefixes and "Infinity" are not.
- Floating-point vitals (temperature, height, weight) are JSON reals checked only for positivity.
- A JSON number is the exact decimal written, not the double `JSON.parse` rounds it to: a literal
  such as `1.0000000000000001`, which rounds to the integer 1, is refused by `.int()` in the model.
  Integers are compared with `Number.MAX_SAFE_INTEGER` exactly, which agrees with JavaScript because
  every integer above 2^53 - 1 rounds to at least 2^53.
- MedicalHistoryValidation.ParseSummary: an optional vital, pressure or blood type given as `null`
  and one left out are both `None`; the difference between `null` and `undefined` is not kept.
- String order (`<` on strings, `StrLt`) compares characters by code point. JavaScript compares
  UTF-16 code units, which agrees on the Basic Multilingual Plane but can differ for a character
  outside it (one above U+FFFF against one from U+E000 to U+FFFF).
- MySQL normalises `TIME`/`DATE` columns ("9:00" is stored as "09:00:00"); rows keep the strings
  as given.
- The database enum of statuses lacks `ausente`; the model's status type has all four values of
  the TypeScript type.
- The repository methods the service calls but the repository does not define (`blockSlot`,
  `completeConsultation`, `getAppointmentsForDoctorByDay`, `getUpcomingAppointmentForDoctor`)
  are modelled by their evident effect (`InsertBlock`, `CompleteConsultation`) or left out.
- `getAppointmentDetailById` and the joined detail rows are reduced to the stored row.
- MySQL's foreign-key message is reduced to its fixed text and the `FOREIGN KEY` clause naming
  the column; the referenced table and constraint name are not modelled.
- Zod issue lists: one issue per failing field, in declared order, reduced to its path; a refine
  issue is listed only when every field passes. Zod 4 skips an object's refinement only after an
  issue that cannot continue (a missing field, a wrong type, a bad enum value); after a failed
  regex, `min` or `positive` check it still runs the refinement and may add its issue. The lines
  below name the members whose issue lists can therefore be shorter than zod's; their verdicts
  (accepted or refused) are unaffected.
- AvailabilityValidation.ParseCreate: may omit the `end_time` order issue after a continuable field failure.
- AvailabilityValidation.ParseBulk: inherits the omission of `ParseCreate` for each element.
- AppointmentValidation.ParseCreate: may omit the `end_time` order issue after a continuable field failure.
- AppointmentValidation.ParseBlockSlot: may omit the `end_time` order issue after a continuable field failure.
- MedicalHistoryValidation.ParsePayload: may omit the `summary.patient_id` issue after a continuable failure inside either part.
- AccountValidation.ParseUserCreate: may omit the `repeatPassword` issue after a continuable field failure.
- AccountValidation.ParseDoctorCreate: may omit the `repeatPassword` issue after a continuable field failure.
- AccountValidation.ParsePatientCreate: may omit the `repeatPassword` issue after a continuable field failure.
- AppointmentSlots.FreeStarts: compares whole seconds exactly; the source compares floating-point
  minutes, so with a seconds field that is not a multiple of 15 (where `s / 60` is not a binary
  fraction) a boundary comparison can come out otherwise than in the model.
- AppointmentService.Walk: the same floating-point boundary caveat as `FreeStarts`.
- AvailabilityService.Starts: the same floating-point boundary caveat as `FreeStarts`.
- AvailabilityService.WalkRule: the same floating-point boundary caveat as `FreeStarts`.
- AppointmentRepository.PagesArePrefixes: holds for one fixed newest-first list. The query orders
  only by day and start time, and MySQL need not order rows that tie on both (a cancelled
  appointment and its rebooking) the same way from one page query to the next, so across real
  queries a tied row can be skipped or repeated; the model breaks ties by table order.
- AvailabilityRepository.AvailabilityTable.CreateBulk: the empty answer rests on two assumptions
  about the database that are not modelled: `getAvailabilityById` takes a connection other than
  the transaction's (the pool has ten), and that connection cannot see uncommitted rows (InnoDB's
  default `REPEATABLE READ`). Under `READ UNCOMMITTED` the source would return the stored rows.
- Object key order of `slotsByDay` (a JavaScript record) is not modelled: it is a `map`.
- AppointmentService.Service.GenerateAvailableSlots: requires a positive period for the doctor's
  rules, because the source loops forever otherwise.
- AvailabilityService.Service.GenerateTimeSlots: requires a positive period for the doctor's
  rules, for the same reason.
- AvailabilityService.Starts: states the one-period spacing of kept slots only when the rest start
  parses, because with a `NaN` rest start the jump to the rest end can overlap the slot just kept
  (shown by `UnparsedRestStart`).
- The `try`/`catch` 500 of the permission middleware: nothing in the modelled decision throws.
- The `console` logging of every handler.
- The other controllers, routes, swagger documents, authentication, tokens, e-mail and calendar
  utilities.
