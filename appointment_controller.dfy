/** The decisions of `src/controllers/appointment.ts` this model keeps: how a
    thrown error becomes an HTTP reply (`handleServiceError`), the `day`
    guard of the available-slots endpoint, and the three status actions. */
module AppointmentController {
  import opened Base
  import opened Js
  import opened Models
  import opened Schema
  import opened Messages
  import opened AppointmentService
  import Appts = AppointmentRepository

  /** What a handler sends: an error body with its status, the slot list,
      or a confirmation message (both 200). */
  datatype Reply =
    | ErrorReply(status: int, error: string)
    | SlotsReply(slots: seq<TimeSlot>)
    | MessageReply(message: string)
  {
    function Status(): int
    {
      if ErrorReply? then status else 200
    }
  }

  /** The parts of a thrown value the handler looks at: whether it is an
      `Error`, its `message`, and the MySQL driver's `code`, `errno` and
      `sqlMessage` when it has them. */
  datatype Thrown = Thrown(isError: bool, message: string, code: Option<string>,
                           errno: Option<int>, sqlMessage: Option<string>)

  const SlotTaken := "El slot de tiempo seleccionado ya está reservado."
  const FkAvailability := "El ID de disponibilidad (availability_id) no existe."
  const FkDoctor := "El ID del doctor (doctor_id) no existe."
  const FkPatient := "El ID del paciente (patient_id) no existe."
  const FkGeneric := "Uno de los recursos asociados (Doctor, Paciente o Disponibilidad) no fue encontrado."
  const InternalError := "Internal server error"
  const DayRequired := "Parámetro 'day' es requerido y debe estar en formato YYYY-MM-DD."

  /** A business error the service threw on purpose. */
  predicate Business(e: Thrown)
  {
    e.isError && (Includes(e.message, NotFound) || e.message == SlotAlreadyBooked)
  }

  /** `error.code === 'ER_NO_REFERENCED_ROW_2' || error.errno === 1452`. */
  predicate IsForeignKey(e: Thrown)
  {
    e.code == Some("ER_NO_REFERENCED_ROW_2") || e.errno == Some(1452)
  }

  /** The foreign-key message, chosen by the first column name found in
      `error.sqlMessage || ''`. */
  function FkText(sql: string): (m: string)
    ensures m in {FkAvailability, FkDoctor, FkPatient, FkGeneric}
    ensures m == FkAvailability <==> Includes(sql, "availability_id")
    ensures m == FkGeneric <==>
      !Includes(sql, "availability_id") && !Includes(sql, "doctor_id") && !Includes(sql, "patient_id")
  {
    if Includes(sql, "availability_id") then FkAvailability
    else if Includes(sql, "doctor_id") then FkDoctor
    else if Includes(sql, "patient_id") then FkPatient
    else FkGeneric
  }

  /** `handleServiceError`: a message mentioning "not found" is a 404 that
      repeats it, whatever else the error carries; then an exact
      `SLOT_ALREADY_BOOKED` is a 409; then a MySQL foreign-key refusal is a
      404; anything else is a 500. */
  function HandleServiceError(e: Thrown): (r: Reply)
    ensures r.ErrorReply? && r.status in {404, 409, 500}
    ensures r.status == 409 <==> e.isError && !Includes(e.message, NotFound) && e.message == SlotAlreadyBooked
    ensures r.status == 500 <==> !Business(e) && !IsForeignKey(e)
    ensures e.isError && Includes(e.message, NotFound) ==> r.error == e.message
    ensures r.status == 500 ==> r.error == InternalError
    ensures !Business(e) && IsForeignKey(e) ==>
      r.error == FkText(if e.sqlMessage.Some? then e.sqlMessage.value else "")
  {
    if e.isError && Includes(e.message, NotFound) then ErrorReply(404, e.message)
    else if e.isError && e.message == SlotAlreadyBooked then ErrorReply(409, SlotTaken)
    else if IsForeignKey(e) then
      ErrorReply(404, FkText(if e.sqlMessage.Some? then e.sqlMessage.value else ""))
    else ErrorReply(500, InternalError)
  }

  /** How a failure of the service reaches the handler: the service's own
      `Error`s carry only a message; the driver's errors carry a code, a
      number and the server's message. */
  function ThrownOf(f: Failure): Thrown
  {
    match f
    case Raised(m) => Thrown(true, m, None, None, None)
    case ForeignKey(c) =>
      Thrown(true, FkSqlMessage(c), Some("ER_NO_REFERENCED_ROW_2"), Some(1452), Some(FkSqlMessage(c)))
    case RowReferenced =>
      Thrown(true, RefSqlMessage, Some("ER_ROW_IS_REFERENCED_2"), Some(1451), Some(RefSqlMessage))
  }

  // ---- the service's failures, classified ----

  /** The owner checks' not-found errors are 404s that show their message. */
  lemma MissingOwnersAre404(id: int)
    ensures HandleServiceError(ThrownOf(Raised(DoctorNotFound(id)))) == ErrorReply(404, DoctorNotFound(id))
    ensures HandleServiceError(ThrownOf(Raised(PatientNotFound(id)))) == ErrorReply(404, PatientNotFound(id))
  {
    SaysNotFound("Doctor with ID " + IntToString(id));
    SaysNotFound("Patient with ID " + IntToString(id));
  }

  /** A missing appointment is a 404 that shows its message. */
  lemma MissingAppointmentIs404()
    ensures HandleServiceError(ThrownOf(Raised(AppointmentNotFound))) == ErrorReply(404, AppointmentNotFound)
  {
    AppointmentNotFoundSays();
  }

  /** A slot taken in the meantime is a 409 with the fixed Spanish text. */
  lemma SlotTakenIs409()
    ensures HandleServiceError(ThrownOf(Raised(SlotAlreadyBooked))) == ErrorReply(409, SlotTaken)
  {
    RejectionsLackNotFound();
  }

  /** The slot-integrity rejections and the invalid-date error are 500s. */
  lemma BusinessRejectionsAre500()
    ensures HandleServiceError(ThrownOf(Raised(OutOfHours))) == ErrorReply(500, InternalError)
    ensures HandleServiceError(ThrownOf(Raised(RestOverlap))) == ErrorReply(500, InternalError)
    ensures HandleServiceError(ThrownOf(Raised(InvalidDate))) == ErrorReply(500, InternalError)
  {
    RejectionsLackNotFound();
    RejectionsAreNotBooked();
  }

  /** A missing parent row is a 404 whose text names the column. */
  lemma ForeignKeysAre404()
    ensures HandleServiceError(ThrownOf(ForeignKey("availability_id"))) == ErrorReply(404, FkAvailability)
    ensures HandleServiceError(ThrownOf(ForeignKey("doctor_id"))) == ErrorReply(404, FkDoctor)
    ensures HandleServiceError(ThrownOf(ForeignKey("patient_id"))) == ErrorReply(404, FkPatient)
  {
    FkMessageNamesColumn("availability_id");
    FkMessageNamesColumn("doctor_id");
    FkMessageNamesColumn("patient_id");
    FkMessageLacksAvailability("doctor_id");
    FkMessageLacksAvailability("patient_id");
    PatientFkLacksDoctor();
  }

  /** The "not found" rule comes first: even a foreign-key error is
      answered with its own message when that message mentions it. */
  lemma NotFoundComesFirst(e: Thrown)
    requires e.isError && Includes(e.message, NotFound) && IsForeignKey(e)
    ensures HandleServiceError(e) == ErrorReply(404, e.message)
  {
  }

  /** When the server's message names several columns, the first one in
      the handler's order wins. */
  lemma FirstColumnWins(sql: string)
    requires Includes(sql, "availability_id") && Includes(sql, "doctor_id")
    ensures FkText(sql) == FkAvailability
  {
  }

  // ---- getAvailableSlotsController ----

  /** The guard on `req.query.day`: present, a string, and shaped
      `YYYY-MM-DD`. */
  predicate DayAccepted(day: Option<Value>)
  {
    day.Some? && day.value.JString? && DateText(day.value.s)
  }

  /** `getAvailableSlotsController` over the service's tables; `weekdayOf`
      is dayjs's reading of the day. */
  function SlotsEndpoint(rules: seq<Availability>, rows: seq<Appointment>, doctors: set<int>,
                         doctorId: int, day: Option<Value>, weekdayOf: string -> Option<Weekday>): (r: Reply)
    requires forall a :: a in rules && a.doctorId == doctorId ==> a.periodTime > 0
    ensures !DayAccepted(day) <==> r == ErrorReply(400, DayRequired)
    ensures DayAccepted(day) ==>
      match AvailableSlots(rules, rows, doctors, doctorId, day.value.s, weekdayOf(day.value.s))
      case Ok(slots) => r == SlotsReply(slots)
      case Err(f) => r == HandleServiceError(ThrownOf(f))
  {
    if !DayAccepted(day) then ErrorReply(400, DayRequired)
    else
      match AvailableSlots(rules, rows, doctors, doctorId, day.value.s, weekdayOf(day.value.s))
      case Ok(slots) => SlotsReply(slots)
      case Err(f) =>
        var r := HandleServiceError(ThrownOf(f));
        assert r.status != 400;
        r
  }

  /** A badly shaped day is refused before the service is asked: the reply
      is the same whatever the tables hold. */
  lemma BadDaySkipsService(rules: seq<Availability>, rows: seq<Appointment>, doctors: set<int>,
                           rules': seq<Availability>, rows': seq<Appointment>, doctors': set<int>,
                           doctorId: int, day: Option<Value>, weekdayOf: string -> Option<Weekday>)
    requires forall a :: a in rules && a.doctorId == doctorId ==> a.periodTime > 0
    requires forall a :: a in rules' && a.doctorId == doctorId ==> a.periodTime > 0
    requires !DayAccepted(day)
    ensures SlotsEndpoint(rules, rows, doctors, doctorId, day, weekdayOf)
         == SlotsEndpoint(rules', rows', doctors', doctorId, day, weekdayOf)
  {
  }

  /** dayjs rolls an impossible month or day over into a real date, so it
      reads every day that passes the guard: the service's invalid-date
      error is then out of reach, and a well-shaped day is answered with the
      slots, or with the unknown doctor's 404, never with a 500. */
  lemma WellShapedDayNever500(rules: seq<Availability>, rows: seq<Appointment>, doctors: set<int>,
                              doctorId: int, day: string, weekdayOf: string -> Option<Weekday>)
    requires forall a :: a in rules && a.doctorId == doctorId ==> a.periodTime > 0
    requires forall s :: DateText(s) ==> weekdayOf(s).Some?
    requires DateText(day)
    ensures var r := SlotsEndpoint(rules, rows, doctors, doctorId, Some(JString(day)), weekdayOf);
      (doctorId in doctors ==> r.SlotsReply?)
      && (doctorId !in doctors ==> r == ErrorReply(404, DoctorNotFound(doctorId)))
  {
    MissingOwnersAre404(doctorId);
  }

  /** An unknown doctor on a well-shaped day is a 404. */
  lemma UnknownDoctorIs404(rules: seq<Availability>, rows: seq<Appointment>, doctors: set<int>,
                           doctorId: int, day: string, weekdayOf: string -> Option<Weekday>)
    requires forall a :: a in rules && a.doctorId == doctorId ==> a.periodTime > 0
    requires doctorId !in doctors && DateText(day)
    ensures SlotsEndpoint(rules, rows, doctors, doctorId, Some(JString(day)), weekdayOf)
      == ErrorReply(404, DoctorNotFound(doctorId))
  {
    MissingOwnersAre404(doctorId);
  }

  // ---- updateStatusAction ----

  /** `cancelAppointment`, `completeAppointment`, `confirmAppointment`. */
  datatype StatusAction = Cancel | Complete | Confirm

  /** The status each action writes. */
  function ActionStatus(a: StatusAction): (st: Status)
    ensures st != Ausente
    ensures a == Confirm <==> st == Confirmado
  {
    match a
    case Cancel => Cancelado
    case Complete => Completado
    case Confirm => Confirmado
  }

  /** The three actions write three different statuses. */
  lemma ActionsDistinct(a: StatusAction, b: StatusAction)
    ensures ActionStatus(a) == ActionStatus(b) ==> a == b
  {
  }

  /** The reply of an action, given what the service answered. */
  function ActionReply(a: StatusAction, outcome: Result<bool, Failure>): (r: Reply)
    ensures outcome.Ok? ==> r == MessageReply("Cita marcada como '" + ActionStatus(a).Name() + "'.")
    ensures outcome.Err? ==> r == HandleServiceError(ThrownOf(outcome.error))
  {
    match outcome
    case Ok(_) => MessageReply("Cita marcada como '" + ActionStatus(a).Name() + "'.")
    case Err(f) => HandleServiceError(ThrownOf(f))
  }

  /** `updateStatusAction(status)` applied to appointment `id`: the row's
      status is overwritten whatever it was, and a missing row is a 404. */
  method UpdateStatusAction(svc: Service, a: StatusAction, id: int) returns (r: Reply)
    requires svc.Valid()
    modifies svc.appointments
    ensures svc.Valid()
    ensures svc.appointments.rows == Appts.SetStatus(old(svc.appointments.rows), id, ActionStatus(a))
    ensures r.Status() == 200 <==> Appts.Find(old(svc.appointments.rows), id).Some?
    ensures r.Status() != 200 ==> r == ErrorReply(404, AppointmentNotFound)
    ensures r.Status() == 200 ==> r == MessageReply("Cita marcada como '" + ActionStatus(a).Name() + "'.")
  {
    var outcome := svc.UpdateAppointmentStatus(id, ActionStatus(a));
    MissingAppointmentIs404();
    r := ActionReply(a, outcome);
  }
}
