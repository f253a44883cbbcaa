/** The records the scheduling engine stores and exchanges: weekly
    availability rules, appointments (and slot blocks), time slots and the
    consultation payload. Dates and times are kept as the strings the API
    receives ("YYYY-MM-DD", "HH:MM:SS"). */
module Models {
  import opened Base
  import opened Js

  /** `day_of_week` of an availability rule. */
  datatype Weekday = Monday | Tuesday | Wednesday | Thursday | Friday | Saturday | Sunday
  {
    /** The lower-case English name stored in the database. */
    function Name(): string
    {
      match this
      case Monday => "monday"
      case Tuesday => "tuesday"
      case Wednesday => "wednesday"
      case Thursday => "thursday"
      case Friday => "friday"
      case Saturday => "saturday"
      case Sunday => "sunday"
    }

    /** Position in `FIELD(day_of_week, 'monday', ..., 'sunday')`. */
    function Index(): (k: int)
      ensures 1 <= k <= 7
    {
      match this
      case Monday => 1
      case Tuesday => 2
      case Wednesday => 3
      case Thursday => 4
      case Friday => 5
      case Saturday => 6
      case Sunday => 7
    }
  }

  /** The weekday whose name is `s`, if any. */
  function WeekdayNamed(s: string): (d: Option<Weekday>)
    ensures d.Some? ==> d.value.Name() == s
  {
    if s == "monday" then Some(Monday)
    else if s == "tuesday" then Some(Tuesday)
    else if s == "wednesday" then Some(Wednesday)
    else if s == "thursday" then Some(Thursday)
    else if s == "friday" then Some(Friday)
    else if s == "saturday" then Some(Saturday)
    else if s == "sunday" then Some(Sunday)
    else None
  }

  /** Every weekday is recognised by its own name, and `Index` tells the days apart. */
  lemma WeekdayNames(d: Weekday, e: Weekday)
    ensures WeekdayNamed(d.Name()) == Some(d)
    ensures d.Index() == e.Index() ==> d == e
  {
  }

  /** `AppointmentStatus`. */
  datatype Status = Confirmado | Cancelado | Completado | Ausente
  {
    function Name(): string
    {
      match this
      case Confirmado => "confirmado"
      case Cancelado => "cancelado"
      case Completado => "completado"
      case Ausente => "ausente"
    }
  }

  function StatusNamed(s: string): (st: Option<Status>)
    ensures st.Some? ==> st.value.Name() == s
  {
    if s == "confirmado" then Some(Confirmado)
    else if s == "cancelado" then Some(Cancelado)
    else if s == "completado" then Some(Completado)
    else if s == "ausente" then Some(Ausente)
    else None
  }

  datatype ConsultationType = Virtual | Presencial
  {
    function Name(): string
    {
      match this
      case Virtual => "virtual"
      case Presencial => "presencial"
    }
  }

  function ConsultationTypeNamed(s: string): (t: Option<ConsultationType>)
    ensures t.Some? ==> t.value.Name() == s
  {
    if s == "virtual" then Some(Virtual)
    else if s == "presencial" then Some(Presencial)
    else None
  }

  lemma EnumNames(st: Status, t: ConsultationType)
    ensures StatusNamed(st.Name()) == Some(st)
    ensures ConsultationTypeNamed(t.Name()) == Some(t)
  {
  }

  /** A weekly availability rule as inserted (`AvailabilityCreate`). */
  datatype AvailabilityCreate = AvailabilityCreate(
    doctorId: int, day: Weekday, startTime: string, endTime: string,
    restStartTime: string, restEndTime: string, periodTime: int)

  /** A stored availability rule (`AvailabilityResponse`); `periodTime` is in minutes. */
  datatype Availability = Availability(
    id: int, doctorId: int, day: Weekday, startTime: string, endTime: string,
    restStartTime: string, restEndTime: string, periodTime: int)

  /** One `key = value` entry of a partial availability update. */
  datatype AvailabilityField =
    | SetDoctor(doctorId: int)
    | SetDay(day: Weekday)
    | SetStart(startTime: string)
    | SetEnd(endTime: string)
    | SetRestStart(restStartTime: string)
    | SetRestEnd(restEndTime: string)
    | SetPeriod(periodTime: int)

  /** `AppointmentCreate`. */
  datatype AppointmentCreate = AppointmentCreate(
    availabilityId: int, doctorId: int, patientId: int, day: string,
    startTime: string, endTime: string, consultationType: ConsultationType)

  /** `BlockSlotCreate`: a slot held without a patient. */
  datatype BlockSlotCreate = BlockSlotCreate(
    availabilityId: int, doctorId: int, day: string, startTime: string,
    endTime: string, reason: Option<string>)

  /** A stored appointment (`AppointmentResponse`). A blocked slot has no
      patient and no consultation type. */
  datatype Appointment = Appointment(
    id: int, availabilityId: int, doctorId: int, patientId: Option<int>,
    day: string, startTime: string, endTime: string, status: Status,
    consultationType: Option<ConsultationType>)

  /** One `key = value` entry of a partial appointment update. */
  datatype AppointmentField =
    | SetAvailability(availabilityId: int)
    | SetAppointmentDoctor(doctorId: int)
    | SetPatient(patientId: int)
    | SetAppointmentDay(day: string)
    | SetStartTime(startTime: string)
    | SetEndTime(endTime: string)
    | SetConsultationType(consultationType: ConsultationType)

  /** `TimeSlot`: start and end as "HH:MM:SS". */
  datatype TimeSlot = TimeSlot(start: string, end: string)

  /** `ConsultationDetailCreate`: the three ids, the reason and diagnosis,
      and the three optional texts (`None` when absent). */
  datatype ConsultationDetailCreate = ConsultationDetailCreate(
    doctorId: int, patientId: int, appointmentId: int,
    reasonForConsultation: string, description: Option<string>, diagnosis: string,
    instructions: Option<string>, notes: Option<string>)

  /** `HealthSummaryCreate`: the patient, the date, and the optional vitals,
      pressures and blood type (`None` when absent or null). */
  datatype HealthSummaryCreate = HealthSummaryCreate(
    patientId: int, summaryDate: string,
    temperature: Option<real>, height: Option<real>, weight: Option<real>,
    systolicPressure: Option<int>, diastolicPressure: Option<int>, bloodType: Option<string>)

  /** `CompleteConsultationPayload`. */
  datatype CompleteConsultationPayload = CompleteConsultationPayload(
    consultation: ConsultationDetailCreate, summary: Option<HealthSummaryCreate>)

  /** The message `verifyDoctorExists` throws. */
  function DoctorNotFound(id: int): string
  {
    "Doctor with ID " + IntToString(id) + " not found."
  }

  /** The message `verifyPatientExists` throws. */
  function PatientNotFound(id: int): string
  {
    "Patient with ID " + IntToString(id) + " not found."
  }

  /** Why a repository or service call fails: an `Error` thrown with a
      message, MySQL refusing a row whose foreign key names a missing parent
      (`ER_NO_REFERENCED_ROW_2`, errno 1452, the message naming `column`),
      or MySQL refusing to delete a row other rows still reference
      (`ER_ROW_IS_REFERENCED_2`, errno 1451). */
  datatype Failure = Raised(message: string) | ForeignKey(column: string) | RowReferenced
}
