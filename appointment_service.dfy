/** The appointment service: the checks it runs before each write to the
    appointments table, the free-slot generator, and the completion of a
    consultation. The doctor and patient repositories are reduced to the
    sets of identifiers they know. */
module AppointmentService {
  import opened Base
  import opened Js
  import opened Sequences
  import opened Models
  import opened Messages
  import opened AppointmentTime
  import opened AppointmentSlots
  import Avail = AvailabilityRepository
  import Appts = AppointmentRepository

  /** `verifySlotIntegrity`: the rule must exist, the slot must lie inside
      the working hours, and it must not overlap the rest break. Times are
      compared as strings. The answer is the message of the first check
      that fails. */
  function SlotIntegrity(rule: Option<Availability>, availabilityId: int, startTime: string, endTime: string)
    : (rejection: Option<string>)
    ensures rejection.None? <==>
      rule.Some? && StrLe(rule.value.startTime, startTime) && StrLe(endTime, rule.value.endTime)
      && !(StrLt(startTime, rule.value.restEndTime) && StrLt(rule.value.restStartTime, endTime))
    ensures rule.None? ==> rejection == Some("Availability slot ID " + IntToString(availabilityId) + " not found.")
    ensures rule.Some? && !(StrLe(rule.value.startTime, startTime) && StrLe(endTime, rule.value.endTime)) ==>
      rejection == Some(OutOfHours)
  {
    if rule.None? then Some("Availability slot ID " + IntToString(availabilityId) + " not found.")
    else
      var a := rule.value;
      if !(StrLe(a.startTime, startTime) && StrLe(endTime, a.endTime)) then Some(OutOfHours)
      else if StrLt(startTime, a.restEndTime) && StrLt(a.restStartTime, endTime) then Some(RestOverlap)
      else None
  }

  /** The first rule of a Monday-first, start-ordered list that falls on
      `day` (`allAvailabilities.find`). */
  function FirstOn(rules: seq<Availability>, day: Weekday): (r: Option<Availability>)
    ensures r.Some? ==> r.value in rules && r.value.day == day
    ensures r.Some? ==>
      exists i :: 0 <= i < |rules| && rules[i] == r.value && forall j :: 0 <= j < i ==> rules[j].day != day
    ensures r.None? <==> forall a :: a in rules ==> a.day != day
  {
    if rules == [] then None
    else if rules[0].day == day then Some(rules[0])
    else
      assert rules == [rules[0]] + rules[1..];
      FirstOn(rules[1..], day)
  }

  /** In a list ordered by weekday and start time, the first rule of a day
      is the one that starts earliest that day. */
  lemma {:induction false} FirstOnStartsEarliest(rules: seq<Availability>, day: Weekday)
    requires SortedBy(rules, Avail.WeekOrder)
    ensures FirstOn(rules, day).Some? ==>
      forall b :: b in rules && b.day == day ==> StrLe(FirstOn(rules, day).value.startTime, b.startTime)
  {
    if rules != [] {
      if rules[0].day == day {
        forall b | b in rules && b.day == day
          ensures StrLe(rules[0].startTime, b.startTime)
        {
          var j :| 0 <= j < |rules| && rules[j] == b;
          if j > 0 {
            assert Avail.WeekOrder(rules[0], rules[j]);
          } else {
            StrLeTotalPreorder(b.startTime, b.startTime, b.startTime);
          }
        }
      } else {
        assert SortedBy(rules[1..], Avail.WeekOrder) by {
          forall i, j | 0 <= i < j < |rules[1..]|
            ensures Avail.WeekOrder(rules[1..][i], rules[1..][j])
          {
            assert rules[1..][i] == rules[i + 1] && rules[1..][j] == rules[j + 1];
          }
        }
        FirstOnStartsEarliest(rules[1..], day);
      }
    }
  }

  /** The rule `generateAvailableSlots` uses: the doctor's first rule on
      that weekday in `getAllByDoctorId` order, which is the one starting
      earliest. */
  function RuleFor(rows: seq<Availability>, doctorId: int, day: Weekday): (r: Option<Availability>)
    ensures r.None? <==> forall a :: a in rows && a.doctorId == doctorId ==> a.day != day
    ensures r.Some? ==> r.value in rows && r.value.doctorId == doctorId && r.value.day == day
    ensures r.Some? ==> forall b :: b in rows && b.doctorId == doctorId && b.day == day ==> StrLe(r.value.startTime, b.startTime)
  {
    FirstOnStartsEarliest(Avail.ByDoctor(rows, doctorId), day);
    FirstOn(Avail.ByDoctor(rows, doctorId), day)
  }

  /** The start times of the doctor's reservations that day (`reservedStartTimes`). */
  function ReservedStarts(rows: seq<Appointment>, doctorId: int, day: string): set<string>
  {
    set a | a in Appts.Reserved(rows, doctorId, day) :: a.startTime
  }

  /** What `generateAvailableSlots` answers. */
  function AvailableSlots(rules: seq<Availability>, rows: seq<Appointment>, doctors: set<int>,
                          doctorId: int, day: string, weekday: Option<Weekday>): Result<seq<TimeSlot>, Failure>
    requires forall a :: a in rules && a.doctorId == doctorId ==> a.periodTime > 0
  {
    if doctorId !in doctors then Err(Raised(DoctorNotFound(doctorId)))
    else if weekday.None? then Err(Raised(InvalidDate))
    else
      var rule := RuleFor(rules, doctorId, weekday.value);
      if rule.None? then Ok([])
      else Ok(FreeSlots(rule.value, ReservedStarts(rows, doctorId, day)))
  }

  /** A known doctor on a valid date with no rule for that weekday gets no
      slots. */
  lemma NoRuleNoSlots(rules: seq<Availability>, rows: seq<Appointment>, doctors: set<int>,
                      doctorId: int, day: string, weekday: Weekday)
    requires forall a :: a in rules && a.doctorId == doctorId ==> a.periodTime > 0
    requires doctorId in doctors
    requires forall a :: a in rules && a.doctorId == doctorId ==> a.day != weekday
    ensures AvailableSlots(rules, rows, doctors, doctorId, day, Some(weekday)) == Ok([])
  {
  }

  /** The times of a rule are canonical "HH:MM:SS" and its rest window is
      not inverted. */
  predicate WellFormedRule(rule: Availability)
  {
    Canonical(rule.startTime) && Canonical(rule.endTime)
    && Canonical(rule.restStartTime) && Canonical(rule.restEndTime)
    && ClockValue(rule.restStartTime) <= ClockValue(rule.restEndTime)
    && rule.periodTime > 0
  }

  /** The window of a well-formed rule, read from its canonical times. */
  lemma RuleWindow(rule: Availability)
    requires WellFormedRule(rule)
    ensures var w := WindowOf(rule);
      ClockValue(rule.startTime) == w.start && ClockValue(rule.endTime) == w.end
      && ClockValue(rule.restStartTime) == w.restStart && ClockValue(rule.restEndTime) == w.restEnd
      && 0 <= w.start && w.end < 360000 && w.restStart <= w.restEnd && w.step > 0
  {
    CanonicalSeconds(rule.startTime);
    CanonicalSeconds(rule.endTime);
    CanonicalSeconds(rule.restStartTime);
    CanonicalSeconds(rule.restEndTime);
  }

  /** The start `FreeSlots` renders as its `i`-th slot, with the facts a
      generated start carries. */
  lemma GeneratedStart(rule: Availability, reserved: set<string>, i: int) returns (x: int)
    requires rule.periodTime > 0 && 0 <= i < |FreeSlots(rule, reserved)|
    ensures var w := WindowOf(rule);
      x == FreeStarts(w, reserved, w.start)[i]
      && w.start <= x && x + w.step <= w.end && !OverlapsRest(w, x) && SecondsToTime(x) !in reserved
      && FreeSlots(rule, reserved)[i] == TimeSlot(SecondsToTime(x), SecondsToTime(x + w.step))
  {
    var w := WindowOf(rule);
    x := FreeStarts(w, reserved, w.start)[i];
  }

  /** Every generated slot passes `verifySlotIntegrity` against its rule,
      so booking it cannot be refused as out of hours or as overlapping the
      rest break. */
  lemma GeneratedSlotsPassIntegrity(rule: Availability, reserved: set<string>, i: int)
    requires WellFormedRule(rule) && 0 <= i < |FreeSlots(rule, reserved)|
    ensures SlotIntegrity(Some(rule), rule.id, FreeSlots(rule, reserved)[i].start, FreeSlots(rule, reserved)[i].end).None?
  {
    var x := GeneratedStart(rule, reserved, i);
    StartPassesIntegrity(rule, x);
  }

  /** A start inside the work window whose slot misses the rest window
      passes `verifySlotIntegrity` once rendered. */
  lemma StartPassesIntegrity(rule: Availability, x: int)
    requires WellFormedRule(rule)
    requires var w := WindowOf(rule); w.start <= x && x + w.step <= w.end && !OverlapsRest(w, x)
    ensures SlotIntegrity(Some(rule), rule.id, SecondsToTime(x), SecondsToTime(x + 60 * rule.periodTime)).None?
  {
    var w := WindowOf(rule);
    RuleWindow(rule);
    TextOrder(x, rule.startTime);
    TextOrder(x, rule.restEndTime);
    TextOrder(x + w.step, rule.endTime);
    TextOrder(x + w.step, rule.restStartTime);
    OverlapsRestIff(w, x);
  }

  /** A rendered time and a canonical time compare as text exactly as
      their values compare. */
  lemma TextOrder(x: int, t: string)
    requires 0 <= x < 360000 && Canonical(t)
    ensures StrLt(SecondsToTime(x), t) <==> x < ClockValue(t)
    ensures StrLt(t, SecondsToTime(x)) <==> ClockValue(t) < x
  {
    SecondsRoundTrip(x);
    CanonicalSeconds(SecondsToTime(x));
    CanonicalOrder(SecondsToTime(x), t);
    CanonicalOrder(t, SecondsToTime(x));
  }

  /** Every generated slot has exactly the rule's period as its length. */
  lemma GeneratedSlotsLastOnePeriod(rule: Availability, reserved: set<string>, i: int)
    requires WellFormedRule(rule) && 0 <= i < |FreeSlots(rule, reserved)|
    ensures TimeToSeconds(FreeSlots(rule, reserved)[i].end) - TimeToSeconds(FreeSlots(rule, reserved)[i].start)
      == 60 * rule.periodTime
  {
    RuleWindow(rule);
    var x := GeneratedStart(rule, reserved, i);
    SecondsRoundTrip(x);
    SecondsRoundTrip(x + WindowOf(rule).step);
  }

  /** The generated slots come in strictly increasing order of their start
      strings. */
  lemma GeneratedSlotsAscend(rule: Availability, reserved: set<string>, i: int, j: int)
    requires WellFormedRule(rule) && 0 <= i < j < |FreeSlots(rule, reserved)|
    ensures StrLt(FreeSlots(rule, reserved)[i].start, FreeSlots(rule, reserved)[j].start)
  {
    RuleWindow(rule);
    var x := GeneratedStart(rule, reserved, i);
    var y := GeneratedStart(rule, reserved, j);
    assert x < y by {
      var w := WindowOf(rule);
      assert FreeStarts(w, reserved, w.start)[i] + w.step <= FreeStarts(w, reserved, w.start)[j];
    }
    RenderedOrder(x, y);
  }

  /** No generated slot starts where a reservation of that doctor and day
      starts, so `isSlotBooked` is false for it. */
  lemma GeneratedSlotsAreFree(rule: Availability, rows: seq<Appointment>, doctorId: int, day: string, i: int)
    requires rule.periodTime > 0
    requires 0 <= i < |FreeSlots(rule, ReservedStarts(rows, doctorId, day))|
    ensures !Appts.SlotBooked(rows, doctorId, day, FreeSlots(rule, ReservedStarts(rows, doctorId, day))[i].start)
  {
    var reserved := ReservedStarts(rows, doctorId, day);
    var x := GeneratedStart(rule, reserved, i);
    var start := FreeSlots(rule, reserved)[i].start;
    assert start !in reserved;
    Appts.ReservedMatchesBooked(rows, doctorId, day, start);
  }

  /** `completeConsultationService`'s checks before the store is called:
      the appointment must exist, be 'confirmado', belong to the doctor and
      patient of the consultation, and a summary must be for the same
      patient. A summary dated differently from the appointment passes. */
  function CompletionCheck(appointment: Option<Appointment>, payload: CompleteConsultationPayload): (rejection: Option<string>)
  {
    var c := payload.consultation;
    var id := IntToString(c.appointmentId);
    if appointment.None? then Some("Appointment with ID " + id + " not found.")
    else
      var a := appointment.value;
      if a.status != Confirmado then
        Some("Appointment with ID " + id + " cannot be completed because its status is '" + a.status.Name() + "'.")
      else if a.doctorId != c.doctorId || a.patientId != Some(c.patientId) then
        Some("Doctor or Patient ID in consultation data does not match the appointment.")
      else if payload.summary.Some? && payload.summary.value.patientId != c.patientId then
        Some("Patient ID mismatch between consultation and health summary data.")
      else None
  }

  /** The completion goes ahead exactly when the appointment exists, is
      confirmed, matches the consultation's doctor and patient, and any
      summary is for that patient. */
  lemma CompletionAccepted(appointment: Option<Appointment>, payload: CompleteConsultationPayload)
    ensures CompletionCheck(appointment, payload).None? <==>
      appointment.Some? && appointment.value.status == Confirmado
      && appointment.value.doctorId == payload.consultation.doctorId
      && appointment.value.patientId == Some(payload.consultation.patientId)
      && (payload.summary.Some? ==> payload.summary.value.patientId == payload.consultation.patientId)
  {
  }

  /** A blocked slot (no patient) can never be completed, and the summary
      date plays no part in the decision. */
  lemma CompletionIgnoresSummaryDate(appointment: Option<Appointment>, payload: CompleteConsultationPayload, date: string)
    requires payload.summary.Some?
    ensures CompletionCheck(appointment, payload) ==
      CompletionCheck(appointment, payload.(summary := Some(payload.summary.value.(summaryDate := date))))
    ensures appointment.Some? && appointment.value.patientId.None? ==> CompletionCheck(appointment, payload).Some?
  {
  }

  /** A listing for a patient or doctor that the corresponding repository
      does not know fails with its not-found message. */
  function OwnerMissing(owner: Appts.Owner, doctors: set<int>, patients: set<int>): (rejection: Option<string>)
    ensures rejection.None? <==>
      (owner.DoctorOwner? && owner.doctorId in doctors) || (owner.PatientOwner? && owner.patientId in patients)
  {
    match owner
    case DoctorOwner(d) => if d in doctors then None else Some(DoctorNotFound(d))
    case PatientOwner(p) => if p in patients then None else Some(PatientNotFound(p))
  }

  class Service {
    var appointments: Appts.AppointmentTable
    var availabilities: Avail.AvailabilityTable
    /** The identifiers the doctor and patient repositories know. */
    var doctors: set<int>
    var patients: set<int>

    ghost predicate Valid()
      reads this, appointments, availabilities
    {
      appointments.Valid() && availabilities.Valid()
    }

    constructor (doctors: set<int>, patients: set<int>)
      ensures Valid() && fresh(appointments) && fresh(availabilities)
      ensures this.doctors == doctors && this.patients == patients
      ensures appointments.rows == [] && availabilities.rows == []
    {
      this.doctors := doctors;
      this.patients := patients;
      appointments := new Appts.AppointmentTable();
      availabilities := new Avail.AvailabilityTable();
    }

    /** The parent identifiers the appointments' foreign keys may name. */
    function Parents(): Appts.Parents
      reads this, availabilities
    {
      Appts.Parents(doctors, patients, set a | a in availabilities.rows :: a.id)
    }

    /** `createAppointment`: doctor, patient and slot integrity are checked
        in that order, then the slot must be free; only then is the row
        inserted. A slot taken once stays single-booked. */
    method CreateAppointment(data: AppointmentCreate) returns (r: Result<Appointment, Failure>)
      requires Valid()
      modifies appointments
      ensures Valid()
      ensures data.doctorId !in doctors ==> r == Err(Raised(DoctorNotFound(data.doctorId)))
      ensures data.doctorId in doctors && data.patientId !in patients ==> r == Err(Raised(PatientNotFound(data.patientId)))
      ensures r.Ok? ==>
        data.doctorId in doctors && data.patientId in patients
        && SlotIntegrity(availabilities.GetById(data.availabilityId), data.availabilityId, data.startTime, data.endTime).None?
        && !Appts.SlotBooked(old(appointments.rows), data.doctorId, data.day, data.startTime)
        && r.value == Appts.Booked(old(appointments.nextId), data)
        && appointments.rows == old(appointments.rows) + [r.value]
      ensures r.Err? ==> appointments.rows == old(appointments.rows)
      ensures data.doctorId in doctors && data.patientId in patients
        && SlotIntegrity(availabilities.GetById(data.availabilityId), data.availabilityId, data.startTime, data.endTime).None?
        && Appts.SlotBooked(old(appointments.rows), data.doctorId, data.day, data.startTime)
        ==> r == Err(Raised(SlotAlreadyBooked))
      ensures data.doctorId in doctors && data.patientId in patients
        && SlotIntegrity(availabilities.GetById(data.availabilityId), data.availabilityId, data.startTime, data.endTime).Some?
        ==> r == Err(Raised(SlotIntegrity(availabilities.GetById(data.availabilityId), data.availabilityId,
                                          data.startTime, data.endTime).value))
      ensures data.doctorId in doctors && data.patientId in patients
        && SlotIntegrity(availabilities.GetById(data.availabilityId), data.availabilityId, data.startTime, data.endTime).None?
        && !Appts.SlotBooked(old(appointments.rows), data.doctorId, data.day, data.startTime)
        ==> r == Ok(Appts.Booked(old(appointments.nextId), data))
      ensures Appts.SingleBooking(old(appointments.rows)) ==> Appts.SingleBooking(appointments.rows)
    {
      if data.doctorId !in doctors {
        return Err(Raised(DoctorNotFound(data.doctorId)));
      }
      if data.patientId !in patients {
        return Err(Raised(PatientNotFound(data.patientId)));
      }
      var rejection := SlotIntegrity(availabilities.GetById(data.availabilityId), data.availabilityId, data.startTime, data.endTime);
      if rejection.Some? {
        return Err(Raised(rejection.value));
      }
      if appointments.IsSlotBooked(data.doctorId, data.day, data.startTime) {
        return Err(Raised(SlotAlreadyBooked));
      }
      assert availabilities.GetById(data.availabilityId).value in availabilities.rows;
      ghost var before := appointments.rows;
      r := appointments.Create(data, Parents());
      if r.Ok? && Appts.SingleBooking(before) {
        Appts.InsertKeepsSingleBooking(before, r.value);
      }
    }

    /** `blockSlot`: only the doctor is checked (no slot integrity), then
        the slot must be free; the block holds the slot without a patient. */
    method BlockSlot(data: BlockSlotCreate) returns (r: Result<Appointment, Failure>)
      requires Valid()
      modifies appointments
      ensures Valid()
      ensures data.doctorId !in doctors ==> r == Err(Raised(DoctorNotFound(data.doctorId)))
      ensures data.doctorId in doctors && Appts.SlotBooked(old(appointments.rows), data.doctorId, data.day, data.startTime)
        ==> r == Err(Raised(SlotAlreadyBooked))
      ensures data.doctorId in doctors && !Appts.SlotBooked(old(appointments.rows), data.doctorId, data.day, data.startTime)
        && availabilities.GetById(data.availabilityId).Some?
        ==> r == Ok(Appts.Block(old(appointments.nextId), data))
      ensures r.Ok? ==>
        data.doctorId in doctors && !Appts.SlotBooked(old(appointments.rows), data.doctorId, data.day, data.startTime)
        && r.value == Appts.Block(old(appointments.nextId), data)
        && appointments.rows == old(appointments.rows) + [r.value]
      ensures r.Err? ==> appointments.rows == old(appointments.rows)
      ensures Appts.SingleBooking(old(appointments.rows)) ==> Appts.SingleBooking(appointments.rows)
    {
      if data.doctorId !in doctors {
        return Err(Raised(DoctorNotFound(data.doctorId)));
      }
      if appointments.IsSlotBooked(data.doctorId, data.day, data.startTime) {
        return Err(Raised(SlotAlreadyBooked));
      }
      if availabilities.GetById(data.availabilityId).Some? {
        assert availabilities.GetById(data.availabilityId).value in availabilities.rows;
      }
      ghost var before := appointments.rows;
      r := appointments.InsertBlock(data, Parents());
      if r.Ok? && Appts.SingleBooking(before) {
        Appts.InsertKeepsSingleBooking(before, r.value);
      }
    }

    /** `getAppointmentById`. */
    function GetAppointmentById(id: int): (r: Result<Appointment, Failure>)
      reads this, appointments
      ensures r.Err? <==> forall a :: a in appointments.rows ==> a.id != id
      ensures r.Err? ==> r.error == Raised(AppointmentNotFound)
      ensures r.Ok? ==> r.value in appointments.rows && r.value.id == id
    {
      var found := Appts.Find(appointments.rows, id);
      if found.None? then Err(Raised(AppointmentNotFound)) else Ok(found.value)
    }

    /** `getAllByPatientId` / `getAllByDoctorId`: the owner must exist,
        then the repository's page is returned. */
    function ListAppointments(owner: Appts.Owner, status: Option<Status>, limit: nat, page: nat)
      : (r: Result<Appts.Listing, Failure>)
      requires page >= 1
      reads this, appointments
      ensures r.Err? <==> OwnerMissing(owner, doctors, patients).Some?
      ensures r.Ok? ==> r.value.total == |Filter(appointments.rows, (a: Appointment) => Appts.Listed(owner, status, a))|
      ensures r.Ok? ==> |r.value.appointments| <= limit
      ensures r.Ok? ==> forall a :: a in r.value.appointments ==> a in appointments.rows && Appts.Listed(owner, status, a)
    {
      var missing := OwnerMissing(owner, doctors, patients);
      if missing.Some? then Err(Raised(missing.value))
      else Ok(Appts.ListPage(appointments.rows, owner, status, limit, page))
    }

    /** `getUpcomingAppointment`: the patient must exist; `now` is the
        clock reading the store compares against. */
    function UpcomingAppointment(patientId: int, now: string): (r: Result<Option<Appointment>, Failure>)
      reads this, appointments
      ensures patientId !in patients <==> r.Err?
      ensures r.Ok? && r.value.Some? ==>
        r.value.value in appointments.rows && Appts.Upcoming(patientId, now, r.value.value)
      ensures r.Ok? && r.value.None? ==> forall a :: a in appointments.rows ==> !Appts.Upcoming(patientId, now, a)
    {
      if patientId !in patients then Err(Raised(PatientNotFound(patientId)))
      else Ok(Appts.NextAppointment(appointments.rows, patientId, now))
    }

    /** `updateAppointment`: a patch naming a (non-zero) doctor or patient
        must name a known one; a patch naming a (non-zero) availability
        rule must leave the merged appointment inside that rule. The store
        then applies the patch. Nothing re-checks that the new slot is
        free. */
    method UpdateAppointment(id: int, fields: seq<AppointmentField>) returns (r: Result<Appointment, Failure>)
      requires Valid()
      modifies appointments
      ensures Valid()
      ensures r.Ok? ==> Appts.Find(appointments.rows, id) == Some(r.value)
      ensures r.Ok? ==> Appts.Find(old(appointments.rows), id).Some?
      ensures r.Ok? && fields != [] ==>
        (Appts.Find(old(appointments.rows), id).Some?
         && r.value == Appts.ApplyFields(Appts.Find(old(appointments.rows), id).value, fields)
         && appointments.rows == Appts.Replace(old(appointments.rows), id, r.value))
      ensures r.Err? || fields == [] ==> appointments.rows == old(appointments.rows)
      ensures Appts.Find(old(appointments.rows), id).None? ==> r.Err?
      ensures PatchedDoctor(fields).Some? && PatchedDoctor(fields).value !in doctors ==>
        r == Err(Raised(DoctorNotFound(PatchedDoctor(fields).value)))
      ensures PatchedDoctorKnown(fields, doctors) && !PatchedPatientKnown(fields, patients) ==>
        r == Err(Raised(PatientNotFound(PatchedPatient(fields).value)))
      ensures PatchedDoctorKnown(fields, doctors) && PatchedPatientKnown(fields, patients) && PatchedAvailability(fields) ==>
        match Appts.Find(old(appointments.rows), id)
        case None => r == Err(Raised(AppointmentNotFound))
        case Some(current) =>
          var merged := Appts.ApplyFields(current, fields);
          var rejection := SlotIntegrity(availabilities.GetById(merged.availabilityId), merged.availabilityId,
                                         merged.startTime, merged.endTime);
          rejection.Some? ==> r == Err(Raised(rejection.value))
    {
      var d := PatchedDoctor(fields);
      if d.Some? && d.value !in doctors {
        return Err(Raised(DoctorNotFound(d.value)));
      }
      var p := PatchedPatient(fields);
      if p.Some? && p.value !in patients {
        return Err(Raised(PatientNotFound(p.value)));
      }
      if PatchedAvailability(fields) {
        var current := Appts.Find(appointments.rows, id);
        if current.None? {
          return Err(Raised(AppointmentNotFound));
        }
        var merged := Appts.ApplyFields(current.value, fields);
        var rejection := SlotIntegrity(availabilities.GetById(merged.availabilityId), merged.availabilityId,
                                       merged.startTime, merged.endTime);
        if rejection.Some? {
          return Err(Raised(rejection.value));
        }
      }
      var updated := appointments.Update(id, fields, Parents());
      if updated.Err? {
        return Err(updated.error);
      }
      if updated.value.None? {
        return Err(Raised(AppointmentNotFound));
      }
      r := Ok(updated.value.value);
    }

    /** `updateAppointmentStatus`: any status may follow any other. A
        missing row is reported as not found. */
    method UpdateAppointmentStatus(id: int, st: Status) returns (r: Result<bool, Failure>)
      requires Valid()
      modifies appointments
      ensures Valid()
      ensures Appts.Find(old(appointments.rows), id).None? <==> r == Err(Raised(AppointmentNotFound))
      ensures r.Ok? ==> r.value
      ensures r.Err? ==> r.error == Raised(AppointmentNotFound)
      ensures appointments.rows == Appts.SetStatus(old(appointments.rows), id, st)
    {
      var matched := appointments.UpdateStatus(id, st);
      if !matched {
        return Err(Raised(AppointmentNotFound));
      }
      r := Ok(true);
    }

    /** `deleteAppointment`: true when the row was removed; a missing row is
        reported as not found. */
    method DeleteAppointment(id: int) returns (r: Result<bool, Failure>)
      requires Valid()
      modifies appointments
      ensures Valid()
      ensures Appts.Find(old(appointments.rows), id).None? ==> r == Err(Raised(AppointmentNotFound))
      ensures r == Ok(true) <==> appointments.rows != old(appointments.rows)
      ensures r.Ok? ==> r.value && appointments.rows == Appts.Without(old(appointments.rows), id)
      ensures r.Err? ==> appointments.rows == old(appointments.rows)
    {
      var removed := appointments.Delete(id);
      if removed.Err? {
        return Err(removed.error);
      }
      if !removed.value {
        return Err(Raised(AppointmentNotFound));
      }
      assert Appts.Find(old(appointments.rows), id).Some?;
      assert Appts.Find(old(appointments.rows), id).value in old(appointments.rows);
      r := Ok(true);
    }

    /** `completeConsultationService`: the appointment is read, the
        business checks of `CompletionCheck` run, and only when they pass
        does the store record the consultation and mark the appointment
        'completado'. */
    method CompleteConsultation(payload: CompleteConsultationPayload) returns (r: Result<Appts.ConsultationRecord, Failure>)
      requires Valid()
      modifies appointments
      ensures Valid()
      ensures r.Err? <==> CompletionCheck(Appts.Find(old(appointments.rows), payload.consultation.appointmentId), payload).Some?
      ensures r.Err? ==>
        r.error == Raised(CompletionCheck(Appts.Find(old(appointments.rows), payload.consultation.appointmentId), payload).value)
        && appointments.rows == old(appointments.rows)
        && appointments.consultations == old(appointments.consultations)
        && appointments.summaries == old(appointments.summaries)
      ensures r.Ok? ==>
        r.value.detail == payload.consultation
        && appointments.consultations == old(appointments.consultations) + [r.value]
        && appointments.rows == Appts.SetStatus(old(appointments.rows), payload.consultation.appointmentId, Completado)
        && appointments.summaries == old(appointments.summaries)
             + (if payload.summary.Some? then [payload.summary.value] else [])
    {
      var appointment := appointments.GetById(payload.consultation.appointmentId);
      var rejection := CompletionCheck(appointment, payload);
      if rejection.Some? {
        return Err(Raised(rejection.value));
      }
      var record := appointments.CompleteConsultation(payload.consultation, payload.summary);
      r := Ok(record);
    }

    /** `generateAvailableSlots`: walks the cursor over the weekday's rule
        and keeps every unreserved slot clear of the rest break. */
    method GenerateAvailableSlots(doctorId: int, day: string, weekday: Option<Weekday>)
      returns (r: Result<seq<TimeSlot>, Failure>)
      requires Valid()
      requires forall a :: a in availabilities.rows && a.doctorId == doctorId ==> a.periodTime > 0
      ensures r == AvailableSlots(availabilities.rows, appointments.rows, doctors, doctorId, day, weekday)
    {
      if doctorId !in doctors {
        return Err(Raised(DoctorNotFound(doctorId)));
      }
      if weekday.None? {
        return Err(Raised(InvalidDate));
      }
      var rule := RuleFor(availabilities.rows, doctorId, weekday.value);
      if rule.None? {
        return Ok([]);
      }
      var reservedRows := appointments.ReservedAppointments(doctorId, day);
      assert reservedRows == Appts.Reserved(appointments.rows, doctorId, day);
      var reserved := set a | a in reservedRows :: a.startTime;
      var slots := Walk(WindowOf(rule.value), reserved);
      r := Ok(slots);
    }
  }

  /** No doctor entry of the patch comes after position `i`. */
  predicate NoDoctorAfter(fields: seq<AppointmentField>, i: nat)
  {
    forall j :: i < j < |fields| ==> !fields[j].SetAppointmentDoctor?
  }

  /** No patient entry of the patch comes after position `i`. */
  predicate NoPatientAfter(fields: seq<AppointmentField>, i: nat)
  {
    forall j :: i < j < |fields| ==> !fields[j].SetPatient?
  }

  /** The doctor the patch's last doctor entry sets, when that one is
      non-zero (`if (data.doctor_id)`); none when the patch sets no doctor
      or its last doctor entry is 0. */
  function PatchedDoctor(fields: seq<AppointmentField>): (d: Option<int>)
    ensures d.Some? ==>
      d.value != 0 && exists i :: 0 <= i < |fields| && fields[i] == SetAppointmentDoctor(d.value) && NoDoctorAfter(fields, i)
    ensures d.None? ==>
      forall i :: 0 <= i < |fields| && fields[i].SetAppointmentDoctor? && NoDoctorAfter(fields, i) ==> fields[i].doctorId == 0
  {
    if fields == [] then None
    else
      var last := fields[|fields| - 1];
      if last.SetAppointmentDoctor? then (if last.doctorId != 0 then Some(last.doctorId) else None)
      else
        var d := PatchedDoctor(fields[..|fields| - 1]);
        assert forall j :: 0 <= j < |fields| - 1 ==> fields[j] == fields[..|fields| - 1][j];
        d
  }

  /** The patient the patch's last patient entry sets, when that one is
      non-zero; none when the patch sets no patient or its last patient
      entry is 0. */
  function PatchedPatient(fields: seq<AppointmentField>): (p: Option<int>)
    ensures p.Some? ==>
      p.value != 0 && exists i :: 0 <= i < |fields| && fields[i] == SetPatient(p.value) && NoPatientAfter(fields, i)
    ensures p.None? ==>
      forall i :: 0 <= i < |fields| && fields[i].SetPatient? && NoPatientAfter(fields, i) ==> fields[i].patientId == 0
  {
    if fields == [] then None
    else
      var last := fields[|fields| - 1];
      if last.SetPatient? then (if last.patientId != 0 then Some(last.patientId) else None)
      else
        var p := PatchedPatient(fields[..|fields| - 1]);
        assert forall j :: 0 <= j < |fields| - 1 ==> fields[j] == fields[..|fields| - 1][j];
        p
  }

  /** The patch names no doctor, or a known one. */
  predicate PatchedDoctorKnown(fields: seq<AppointmentField>, doctors: set<int>)
  {
    PatchedDoctor(fields).None? || PatchedDoctor(fields).value in doctors
  }

  /** The patch names no patient, or a known one. */
  predicate PatchedPatientKnown(fields: seq<AppointmentField>, patients: set<int>)
  {
    PatchedPatient(fields).None? || PatchedPatient(fields).value in patients
  }

  /** Whether the patch sets a non-zero availability rule. */
  predicate PatchedAvailability(fields: seq<AppointmentField>)
  {
    if fields == [] then false
    else
      var last := fields[|fields| - 1];
      if last.SetAvailability? then last.availabilityId != 0
      else PatchedAvailability(fields[..|fields| - 1])
  }

  /** The cursor loop of `generateAvailableSlots`: it keeps each slot that
      avoids the rest window and whose start text is not reserved, and
      returns exactly the rendered walk. */
  method Walk(w: Window, reserved: set<string>) returns (slots: seq<TimeSlot>)
    requires w.step > 0
    ensures slots == Render(FreeStarts(w, reserved, w.start), w.step)
  {
    ghost var kept: seq<int> := [];
    slots := [];
    var cursor := w.start;
    while cursor + w.step <= w.end
      invariant slots == Render(kept, w.step)
      invariant kept + FreeStarts(w, reserved, cursor) == FreeStarts(w, reserved, w.start)
      decreases w.end - cursor
    {
      var slotEnd := cursor + w.step;
      var startText := SecondsToTime(cursor);
      var overlaps := (cursor >= w.restStart && cursor < w.restEnd) || (slotEnd > w.restStart && slotEnd <= w.restEnd)
        || (cursor < w.restStart && slotEnd > w.restEnd);
      assert overlaps == OverlapsRest(w, cursor);
      var next := if slotEnd <= w.restStart then slotEnd else if cursor < w.restEnd then w.restEnd else slotEnd;
      assert next == Advance(w, cursor);
      WalkStep(w, reserved, kept, cursor);
      if !overlaps && startText !in reserved {
        RenderConcat(kept, [cursor], w.step);
        slots := slots + [TimeSlot(startText, SecondsToTime(slotEnd))];
        kept := kept + [cursor];
      }
      cursor := next;
    }
    assert FreeStarts(w, reserved, cursor) == [];
    assert kept == FreeStarts(w, reserved, w.start);
  }

  /** One step of the walk: the start at the cursor is kept when it misses
      the rest break and is not reserved, and the walk goes on from the
      cursor's next position. */
  lemma WalkStep(w: Window, reserved: set<string>, kept: seq<int>, s: int)
    requires w.step > 0 && s + w.step <= w.end
    ensures kept + FreeStarts(w, reserved, s) ==
      (if !OverlapsRest(w, s) && SecondsToTime(s) !in reserved then kept + [s] else kept)
      + FreeStarts(w, reserved, Advance(w, s))
  {
    var rest := FreeStarts(w, reserved, Advance(w, s));
    FreeStartsUnfold(w, reserved, s);
    if !OverlapsRest(w, s) && SecondsToTime(s) !in reserved {
      assert kept + ([s] + rest) == (kept + [s]) + rest;
    }
  }

  lemma FreeStartsUnfold(w: Window, reserved: set<string>, s: int)
    requires w.step > 0 && s + w.step <= w.end
    ensures FreeStarts(w, reserved, s) ==
      if !OverlapsRest(w, s) && SecondsToTime(s) !in reserved then [s] + FreeStarts(w, reserved, Advance(w, s))
      else FreeStarts(w, reserved, Advance(w, s))
  {
  }

  lemma RenderConcat(a: seq<int>, b: seq<int>, step: int)
    ensures Render(a + b, step) == Render(a, step) + Render(b, step)
  {
  }
}
