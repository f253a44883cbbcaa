/** The `appointments` table and the repository over it. A row is a booked
    consultation or a blocked slot; a row whose status reserves its slot
    makes `isSlotBooked` answer true for that doctor, day and start time.
    Foreign keys are checked against the parent identifiers handed to
    each write. */
module AppointmentRepository {
  import opened Base
  import opened Js
  import opened Sequences
  import opened Models

  /** The identifiers that exist in the parent tables the foreign keys of
      `appointments` point at. */
  datatype Parents = Parents(doctors: set<int>, patients: set<int>, availabilities: set<int>)

  /** `status IN ('confirmado', 'pendiente')`: no stored status is
      'pendiente', so only a confirmed row reserves its slot. */
  predicate Reserves(st: Status)
  {
    st == Confirmado
  }

  /** The row stored under `id` (`getAppointmentById`). */
  function Find(rows: seq<Appointment>, id: int): (r: Option<Appointment>)
    ensures r.Some? ==> r.value in rows && r.value.id == id
    ensures r.None? <==> forall a :: a in rows ==> a.id != id
  {
    if rows == [] then None
    else if rows[0].id == id then Some(rows[0])
    else
      assert rows == [rows[0]] + rows[1..];
      Find(rows[1..], id)
  }

  predicate UniqueIds(rows: seq<Appointment>)
  {
    forall i, j :: 0 <= i < j < |rows| ==> rows[i].id != rows[j].id
  }

  /** `a` holds the doctor's slot that starts at `startTime` on `day`. */
  predicate HoldsSlot(a: Appointment, doctorId: int, day: string, startTime: string)
  {
    a.doctorId == doctorId && a.day == day && a.startTime == startTime && Reserves(a.status)
  }

  /** `isSlotBooked`. */
  function SlotBooked(rows: seq<Appointment>, doctorId: int, day: string, startTime: string): (booked: bool)
    ensures booked <==> exists a :: a in rows && HoldsSlot(a, doctorId, day, startTime)
  {
    var hits := Filter(rows, (a: Appointment) => HoldsSlot(a, doctorId, day, startTime));
    assert hits != [] ==> hits[0] in hits;
    |hits| > 0
  }

  /** The booking invariant: no two different rows hold the same slot.
      (Rows differ at least in their identifiers in a valid table.) */
  predicate SingleBooking(rows: seq<Appointment>)
  {
    forall a, b :: a in rows && b in rows && a != b && Reserves(a.status) ==>
      !HoldsSlot(b, a.doctorId, a.day, a.startTime)
  }

  /** Chronological order on (day, start_time), as the strings compare. */
  predicate Earlier(a: Appointment, b: Appointment)
  {
    StrLt(a.day, b.day) || (a.day == b.day && StrLe(a.startTime, b.startTime))
  }

  /** `ORDER BY a.day DESC, a.start_time DESC`. */
  predicate Newer(a: Appointment, b: Appointment)
  {
    Earlier(b, a)
  }

  /** `ORDER BY start_time ASC`. */
  predicate StartsFirst(a: Appointment, b: Appointment)
  {
    StrLe(a.startTime, b.startTime)
  }

  lemma OrdersAreTotalPreorders()
    ensures TotalPreorder(Earlier) && TotalPreorder(Newer) && TotalPreorder(StartsFirst)
  {
    forall a: Appointment, b: Appointment
      ensures Earlier(a, b) || Earlier(b, a)
    {
      StrLeTotalPreorder(a.startTime, b.startTime, b.startTime);
      if a.day != b.day {
        StrLtTotal(a.day, b.day);
      }
    }
    forall a: Appointment, b: Appointment, c: Appointment | Earlier(a, b) && Earlier(b, c)
      ensures Earlier(a, c)
    {
      StrLeTotalPreorder(a.startTime, b.startTime, c.startTime);
      if StrLt(a.day, b.day) && StrLt(b.day, c.day) {
        StrLtTransitive(a.day, b.day, c.day);
      }
    }
    forall a: Appointment, b: Appointment
      ensures StartsFirst(a, b) || StartsFirst(b, a)
    {
      StrLeTotalPreorder(a.startTime, b.startTime, b.startTime);
    }
    forall a: Appointment, b: Appointment, c: Appointment | StartsFirst(a, b) && StartsFirst(b, c)
      ensures StartsFirst(a, c)
    {
      StrLeTotalPreorder(a.startTime, b.startTime, c.startTime);
    }
  }

  /** `getReservedAppointments` (and `getAvailableSlots`, which returns the
      same list): the doctor's reserving rows of that day by start time. */
  function Reserved(rows: seq<Appointment>, doctorId: int, day: string): (r: seq<Appointment>)
    ensures forall a :: a in r <==> a in rows && a.doctorId == doctorId && a.day == day && Reserves(a.status)
    ensures SortedBy(r, StartsFirst)
  {
    var mine := Filter(rows, (a: Appointment) => a.doctorId == doctorId && a.day == day && Reserves(a.status));
    OrdersAreTotalPreorders();
    SortBySorted(mine, StartsFirst);
    var r := SortBy(mine, StartsFirst);
    assert forall a :: a in r <==> a in multiset(r);
    assert forall a :: a in mine <==> a in multiset(mine);
    r
  }

  /** A reservation of that doctor and day exists for a start time exactly
      when the slot is booked. */
  lemma ReservedMatchesBooked(rows: seq<Appointment>, doctorId: int, day: string, startTime: string)
    ensures SlotBooked(rows, doctorId, day, startTime) <==>
            exists a :: a in Reserved(rows, doctorId, day) && a.startTime == startTime
  {
    if SlotBooked(rows, doctorId, day, startTime) {
      var a :| a in rows && HoldsSlot(a, doctorId, day, startTime);
      assert a in Reserved(rows, doctorId, day);
    }
  }

  /** Whose appointments a listing shows. */
  datatype Owner = DoctorOwner(doctorId: int) | PatientOwner(patientId: int)

  /** `WHERE a.doctor_id = ?` or `WHERE a.patient_id = ?`, then `AND a.status = ?` when a status is given. */
  predicate Listed(owner: Owner, status: Option<Status>, a: Appointment)
  {
    (match owner
     case DoctorOwner(d) => a.doctorId == d
     case PatientOwner(p) => a.patientId == Some(p))
    && (status.None? || a.status == status.value)
  }

  /** Every listed row, newest first. */
  function Matching(rows: seq<Appointment>, owner: Owner, status: Option<Status>): (r: seq<Appointment>)
    ensures forall a :: a in r <==> a in rows && Listed(owner, status, a)
    ensures SortedBy(r, Newer)
    ensures multiset(r) == multiset(Filter(rows, (a: Appointment) => Listed(owner, status, a)))
    ensures |r| == |Filter(rows, (a: Appointment) => Listed(owner, status, a))|
  {
    var mine := Filter(rows, (a: Appointment) => Listed(owner, status, a));
    OrdersAreTotalPreorders();
    SortBySorted(mine, Newer);
    var r := SortBy(mine, Newer);
    assert forall a :: a in r <==> a in multiset(r);
    assert forall a :: a in mine <==> a in multiset(mine);
    r
  }

  /** The `{ appointments, total }` answer of a paginated listing. */
  datatype Listing = Listing(appointments: seq<Appointment>, total: int)

  function Min(a: int, b: int): int { if a <= b then a else b }

  /** `(page - 1) * limit`. */
  function Offset(limit: nat, page: nat): nat
    requires page >= 1
  {
    (page - 1) * limit
  }

  /** Page `page` of `all` at `limit` rows a page: the rows from offset
      `(page - 1) * limit` on, at most `limit` of them (`LIMIT ? OFFSET ?`). */
  function PageOf(all: seq<Appointment>, limit: nat, page: nat): (r: seq<Appointment>)
    requires page >= 1
    ensures |r| <= limit
    ensures forall a :: a in r ==> a in all
  {
    var from := Min(Offset(limit, page), |all|);
    var to := Min(Offset(limit, page) + limit, |all|);
    assert forall a :: a in all[from..to] ==> a in all;
    all[from..to]
  }

  /** Pages 1 to `k` of `all`, read one after the other. */
  function Pages(all: seq<Appointment>, limit: nat, k: nat): seq<Appointment>
  {
    if k == 0 then [] else Pages(all, limit, k - 1) + PageOf(all, limit, k)
  }

  /** The first `k` pages are the first `k * limit` rows, with no row
      skipped or repeated; enough pages show every row. */
  lemma {:induction false} PagesArePrefixes(all: seq<Appointment>, limit: nat, k: nat)
    ensures Pages(all, limit, k) == all[..Min(k * limit, |all|)]
    ensures k * limit >= |all| ==> Pages(all, limit, k) == all
  {
    if k > 0 {
      PagesArePrefixes(all, limit, k - 1);
      var before := Offset(limit, k);
      assert before + limit == k * limit;
      assert PageOf(all, limit, k) == all[Min(before, |all|)..Min(k * limit, |all|)];
      assert all[..Min(before, |all|)] + all[Min(before, |all|)..Min(k * limit, |all|)] == all[..Min(k * limit, |all|)];
    }
    assert all[..|all|] == all;
  }

  lemma SortedSlice(s: seq<Appointment>, le: (Appointment, Appointment) -> bool, i: int, j: int)
    requires SortedBy(s, le) && 0 <= i <= j <= |s|
    ensures SortedBy(s[i..j], le)
  {
    forall x, y | 0 <= x < y < j - i
      ensures le(s[i..j][x], s[i..j][y])
    {
      assert s[i..j][x] == s[i + x] && s[i..j][y] == s[i + y];
    }
  }

  /** `getAllByDoctorId` / `getAllByPatientId`: `total` counts every listed
      row; the page holds at most `limit` of them, taken from offset
      `(page - 1) * limit` of the newest-first order. */
  function ListPage(rows: seq<Appointment>, owner: Owner, status: Option<Status>, limit: nat, page: nat): (r: Listing)
    requires page >= 1
    ensures r.total == |Filter(rows, (a: Appointment) => Listed(owner, status, a))|
    ensures r.appointments == PageOf(Matching(rows, owner, status), limit, page)
    ensures |r.appointments| <= limit
    ensures forall a :: a in r.appointments ==> a in rows && Listed(owner, status, a)
    ensures SortedBy(r.appointments, Newer)
  {
    var all := Matching(rows, owner, status);
    var from := Min(Offset(limit, page), |all|);
    var to := Min(Offset(limit, page) + limit, |all|);
    SortedSlice(all, Newer, from, to);
    var r := PageOf(all, limit, page);
    assert r == all[from..to];
    Listing(r, |all|)
  }

  /** `CONCAT(a.day, ' ', a.start_time) >= NOW()` with the clock reading
      `now` in the same "YYYY-MM-DD HH:MM:SS" form. */
  predicate NotPast(a: Appointment, now: string)
  {
    StrLe(now, a.day + " " + a.startTime)
  }

  predicate Upcoming(patientId: int, now: string, a: Appointment)
  {
    a.patientId == Some(patientId) && a.status == Confirmado && NotPast(a, now)
  }

  /** `getUpcomingAppointment`: the patient's earliest confirmed
      appointment that has not started yet, or none. */
  function NextAppointment(rows: seq<Appointment>, patientId: int, now: string): (r: Option<Appointment>)
    ensures r.None? <==> forall a :: a in rows ==> !Upcoming(patientId, now, a)
    ensures r.Some? ==> r.value in rows && Upcoming(patientId, now, r.value)
    ensures r.Some? ==> forall a :: a in rows && Upcoming(patientId, now, a) ==> Earlier(r.value, a)
  {
    var mine := Filter(rows, (a: Appointment) => Upcoming(patientId, now, a));
    assert forall a :: a in mine <==> a in rows && Upcoming(patientId, now, a);
    EarliestFirst(mine);
    var sorted := SortBy(mine, Earlier);
    if sorted == [] then
      assert forall a :: a !in mine;
      None
    else
      assert sorted[0] in mine;
      Some(sorted[0])
  }

  /** Sorting by start keeps the same appointments and puts one that
      starts earliest first. */
  lemma EarliestFirst(xs: seq<Appointment>)
    ensures forall a :: a in SortBy(xs, Earlier) <==> a in xs
    ensures SortBy(xs, Earlier) != [] ==>
      forall a :: a in SortBy(xs, Earlier) ==> Earlier(SortBy(xs, Earlier)[0], a)
  {
    OrdersAreTotalPreorders();
    SortBySorted(xs, Earlier);
    var sorted := SortBy(xs, Earlier);
    assert forall a :: a in sorted <==> a in multiset(sorted);
    assert forall a :: a in xs <==> a in multiset(xs);
    forall a | a in sorted
      ensures Earlier(sorted[0], a)
    {
      var k :| 0 <= k < |sorted| && sorted[k] == a;
      if k > 0 {
        assert Earlier(sorted[0], sorted[k]);
      } else {
        StrLeTotalPreorder(a.startTime, a.startTime, a.startTime);
      }
    }
  }

  /** The row for an insert that received identifier `id`; the column
      default gives it status 'confirmado'. */
  function Booked(id: int, data: AppointmentCreate): Appointment
  {
    Appointment(id, data.availabilityId, data.doctorId, Some(data.patientId), data.day,
                data.startTime, data.endTime, Confirmado, Some(data.consultationType))
  }

  /** The row a slot block stores: the slot held for the doctor, with no patient. */
  function Block(id: int, data: BlockSlotCreate): Appointment
  {
    Appointment(id, data.availabilityId, data.doctorId, None, data.day,
                data.startTime, data.endTime, Confirmado, None)
  }

  /** The first foreign key of `a` that names a missing parent, in the
      order the table declares them. */
  function MissingParent(parents: Parents, a: Appointment): (column: Option<string>)
    ensures column.None? <==>
      a.doctorId in parents.doctors && a.availabilityId in parents.availabilities
      && (a.patientId.Some? ==> a.patientId.value in parents.patients)
  {
    if a.doctorId !in parents.doctors then Some("doctor_id")
    else if a.patientId.Some? && a.patientId.value !in parents.patients then Some("patient_id")
    else if a.availabilityId !in parents.availabilities then Some("availability_id")
    else None
  }

  /** `UPDATE appointments SET status = ? WHERE id = ?`. */
  function SetStatus(rows: seq<Appointment>, id: int, st: Status): (r: seq<Appointment>)
    ensures |r| == |rows|
    ensures forall i :: 0 <= i < |r| ==> r[i] == if rows[i].id == id then rows[i].(status := st) else rows[i]
  {
    seq(|rows|, i requires 0 <= i < |rows| => if rows[i].id == id then rows[i].(status := st) else rows[i])
  }

  function Replace(rows: seq<Appointment>, id: int, b: Appointment): (r: seq<Appointment>)
    ensures |r| == |rows|
    ensures forall i :: 0 <= i < |r| ==> r[i] == if rows[i].id == id then b else rows[i]
  {
    seq(|rows|, i requires 0 <= i < |rows| => if rows[i].id == id then b else rows[i])
  }

  function Without(rows: seq<Appointment>, id: int): (r: seq<Appointment>)
    ensures forall a :: a in r <==> a in rows && a.id != id
    ensures multiset(r) <= multiset(rows)
  {
    Filter(rows, (a: Appointment) => a.id != id)
  }

  /** The columns a partial appointment update may set. */
  datatype Column = AvailabilityColumn | DoctorColumn | PatientColumn | DayColumn
                  | StartColumn | EndColumn | TypeColumn

  datatype ColumnValue = IntValue(i: int) | TextValue(s: string)
                       | PatientValue(p: Option<int>) | TypeValue(t: Option<ConsultationType>)

  function ColumnOf(f: AppointmentField): Column
  {
    match f
    case SetAvailability(_) => AvailabilityColumn
    case SetAppointmentDoctor(_) => DoctorColumn
    case SetPatient(_) => PatientColumn
    case SetAppointmentDay(_) => DayColumn
    case SetStartTime(_) => StartColumn
    case SetEndTime(_) => EndColumn
    case SetConsultationType(_) => TypeColumn
  }

  function ValueOf(f: AppointmentField): ColumnValue
  {
    match f
    case SetAvailability(v) => IntValue(v)
    case SetAppointmentDoctor(v) => IntValue(v)
    case SetPatient(v) => PatientValue(Some(v))
    case SetAppointmentDay(v) => TextValue(v)
    case SetStartTime(v) => TextValue(v)
    case SetEndTime(v) => TextValue(v)
    case SetConsultationType(v) => TypeValue(Some(v))
  }

  function Get(a: Appointment, c: Column): ColumnValue
  {
    match c
    case AvailabilityColumn => IntValue(a.availabilityId)
    case DoctorColumn => IntValue(a.doctorId)
    case PatientColumn => PatientValue(a.patientId)
    case DayColumn => TextValue(a.day)
    case StartColumn => TextValue(a.startTime)
    case EndColumn => TextValue(a.endTime)
    case TypeColumn => TypeValue(a.consultationType)
  }

  /** Two rows with the same identifier, status and column values are the same row. */
  lemma SameColumns(a: Appointment, b: Appointment)
    requires a.id == b.id && a.status == b.status
    requires forall c :: Get(a, c) == Get(b, c)
    ensures a == b
  {
    assert Get(a, AvailabilityColumn) == Get(b, AvailabilityColumn);
    assert Get(a, DoctorColumn) == Get(b, DoctorColumn);
    assert Get(a, PatientColumn) == Get(b, PatientColumn);
    assert Get(a, DayColumn) == Get(b, DayColumn);
    assert Get(a, StartColumn) == Get(b, StartColumn);
    assert Get(a, EndColumn) == Get(b, EndColumn);
    assert Get(a, TypeColumn) == Get(b, TypeColumn);
  }

  /** One `column = ?` assignment of the `UPDATE` statement. */
  function ApplyField(a: Appointment, f: AppointmentField): (b: Appointment)
    ensures b.id == a.id && b.status == a.status
    ensures Get(b, ColumnOf(f)) == ValueOf(f)
    ensures forall c :: c != ColumnOf(f) ==> Get(b, c) == Get(a, c)
  {
    match f
    case SetAvailability(v) => a.(availabilityId := v)
    case SetAppointmentDoctor(v) => a.(doctorId := v)
    case SetPatient(v) => a.(patientId := Some(v))
    case SetAppointmentDay(v) => a.(day := v)
    case SetStartTime(v) => a.(startTime := v)
    case SetEndTime(v) => a.(endTime := v)
    case SetConsultationType(v) => a.(consultationType := Some(v))
  }

  function ApplyFields(a: Appointment, fs: seq<AppointmentField>): Appointment
  {
    if fs == [] then a else ApplyField(ApplyFields(a, fs[..|fs| - 1]), fs[|fs| - 1])
  }

  function LastValue(fs: seq<AppointmentField>, c: Column): Option<ColumnValue>
  {
    if fs == [] then None
    else if ColumnOf(fs[|fs| - 1]) == c then Some(ValueOf(fs[|fs| - 1]))
    else LastValue(fs[..|fs| - 1], c)
  }

  /** An update sets exactly the supplied columns (the last entry for a
      column wins) and keeps the identifier, the status and every other
      column. */
  lemma {:induction false} PatchSemantics(a: Appointment, fs: seq<AppointmentField>, c: Column)
    ensures ApplyFields(a, fs).id == a.id && ApplyFields(a, fs).status == a.status
    ensures Get(ApplyFields(a, fs), c) == match LastValue(fs, c) case Some(v) => v case None => Get(a, c)
  {
    if fs != [] {
      PatchSemantics(a, fs[..|fs| - 1], c);
    }
  }

  /** Inserting a row keeps the booking invariant when the row either does
      not reserve or its slot was free. */
  lemma InsertKeepsSingleBooking(rows: seq<Appointment>, b: Appointment)
    requires SingleBooking(rows)
    requires Reserves(b.status) ==> !SlotBooked(rows, b.doctorId, b.day, b.startTime)
    ensures SingleBooking(rows + [b])
  {
    forall x, y | x in rows + [b] && y in rows + [b] && x != y && Reserves(x.status)
      ensures !HoldsSlot(y, x.doctorId, x.day, x.startTime)
    {
      if x == b {
        assert y in rows;
      }
    }
  }

  /** Setting a status that does not reserve never creates a double booking. */
  lemma ReleaseKeepsSingleBooking(rows: seq<Appointment>, id: int, st: Status)
    requires SingleBooking(rows) && !Reserves(st)
    ensures SingleBooking(SetStatus(rows, id, st))
  {
    var r := SetStatus(rows, id, st);
    forall x, y | x in r && y in r && x != y && Reserves(x.status)
      ensures !HoldsSlot(y, x.doctorId, x.day, x.startTime)
    {
      var i :| 0 <= i < |r| && r[i] == x;
      var j :| 0 <= j < |r| && r[j] == y;
      assert x == rows[i];
      if Reserves(y.status) {
        assert y == rows[j];
        assert x in rows && y in rows;
      }
    }
  }

  /** Removing a row never creates a double booking. */
  lemma RemovalKeepsSingleBooking(rows: seq<Appointment>, id: int)
    requires SingleBooking(rows)
    ensures SingleBooking(Without(rows, id))
  {
  }

  /** Two rows for the same slot: one confirmed, one cancelled. */
  function TwoRowsOneSlot(): seq<Appointment>
  {
    [ Appointment(1, 1, 7, Some(3), "2025-06-02", "09:00:00", "09:30:00", Confirmado, Some(Presencial)),
      Appointment(2, 1, 7, Some(4), "2025-06-02", "09:00:00", "09:30:00", Cancelado, Some(Virtual)) ]
  }

  /** Confirming a cancelled row (`updateAppointmentStatus` with 'confirmado',
      which checks nothing) can book one slot twice. */
  lemma ConfirmCanDoubleBook()
    ensures SingleBooking(TwoRowsOneSlot())
    ensures !SingleBooking(SetStatus(TwoRowsOneSlot(), 2, Confirmado))
  {
    var rows := TwoRowsOneSlot();
    assert forall x :: x in rows ==> x == rows[0] || x == rows[1];
    var after := SetStatus(rows, 2, Confirmado);
    assert after[0] in after && after[1] in after && after[0] != after[1];
    assert HoldsSlot(after[1], after[0].doctorId, after[0].day, after[0].startTime);
  }

  /** Moving a confirmed row onto another confirmed row's start time
      (`updateAppointment`, which never asks `isSlotBooked`) can book one
      slot twice. */
  lemma MoveCanDoubleBook()
    ensures var rows := [TwoRowsOneSlot()[0], TwoRowsOneSlot()[1].(status := Confirmado, startTime := "09:30:00")];
            SingleBooking(rows) && !SingleBooking(Replace(rows, 2, ApplyFields(rows[1], [SetStartTime("09:00:00")])))
  {
    var rows := [TwoRowsOneSlot()[0], TwoRowsOneSlot()[1].(status := Confirmado, startTime := "09:30:00")];
    assert forall x :: x in rows ==> x == rows[0] || x == rows[1];
    var moved := ApplyFields(rows[1], [SetStartTime("09:00:00")]);
    assert [SetStartTime("09:00:00")][..0] == [];
    var after := Replace(rows, 2, moved);
    assert after[0] == rows[0] && after[1] == moved;
    assert after[0] in after && after[1] in after && after[0] != after[1];
    assert HoldsSlot(after[1], after[0].doctorId, after[0].day, after[0].startTime);
  }

  /** A consultation record written when an appointment is completed. */
  datatype ConsultationRecord = ConsultationRecord(id: int, detail: ConsultationDetailCreate)

  class AppointmentTable {
    var rows: seq<Appointment>
    var nextId: int
    /** The `medical_consultations_detail` and `health_summaries` rows
        written by the completion transaction. */
    var consultations: seq<ConsultationRecord>
    var summaries: seq<HealthSummaryCreate>

    ghost predicate Valid()
      reads this
    {
      nextId >= 1 && UniqueIds(rows) && (forall a :: a in rows ==> 1 <= a.id < nextId)
    }

    constructor ()
      ensures Valid() && rows == [] && nextId == 1 && consultations == [] && summaries == []
    {
      rows := [];
      nextId := 1;
      consultations := [];
      summaries := [];
    }

    /** `getAppointmentById`. */
    function GetById(id: int): (r: Option<Appointment>)
      reads this
      ensures r.None? <==> forall a :: a in rows ==> a.id != id
      ensures r.Some? ==> r.value in rows && r.value.id == id
    {
      Find(rows, id)
    }

    /** `isSlotBooked`. */
    function IsSlotBooked(doctorId: int, day: string, startTime: string): (booked: bool)
      reads this
      ensures booked <==> exists a :: a in rows && HoldsSlot(a, doctorId, day, startTime)
    {
      SlotBooked(rows, doctorId, day, startTime)
    }

    /** `getReservedAppointments`; `getAvailableSlots` answers the same. */
    function ReservedAppointments(doctorId: int, day: string): (r: seq<Appointment>)
      reads this
      ensures forall a :: a in r <==> a in rows && a.doctorId == doctorId && a.day == day && Reserves(a.status)
      ensures SortedBy(r, StartsFirst)
    {
      Reserved(rows, doctorId, day)
    }

    /** Inserts `b` under the next identifier unless a foreign key fails. */
    method Insert(b: Appointment, parents: Parents) returns (r: Result<Appointment, Failure>)
      requires Valid() && b.id == nextId
      modifies this
      ensures Valid() && consultations == old(consultations) && summaries == old(summaries)
      ensures MissingParent(parents, b).Some? ==>
        r == Err(ForeignKey(MissingParent(parents, b).value)) && rows == old(rows) && nextId == old(nextId)
      ensures MissingParent(parents, b).None? ==>
        r == Ok(b) && rows == old(rows) + [b] && nextId == old(nextId) + 1 && Find(rows, b.id) == Some(b)
    {
      var missing := MissingParent(parents, b);
      if missing.Some? {
        return Err(ForeignKey(missing.value));
      }
      assert Find(rows, b.id).None?;
      rows := rows + [b];
      nextId := nextId + 1;
      FindAppended(old(rows), b);
      r := Ok(b);
    }

    /** `createAppointment`: one new row with the seven given fields and
        the default status 'confirmado', returned as re-read. */
    method Create(data: AppointmentCreate, parents: Parents) returns (r: Result<Appointment, Failure>)
      requires Valid()
      modifies this
      ensures Valid() && consultations == old(consultations) && summaries == old(summaries)
      ensures var b := Booked(old(nextId), data);
        if MissingParent(parents, b).Some? then
          r == Err(ForeignKey(MissingParent(parents, b).value)) && rows == old(rows) && nextId == old(nextId)
        else
          r == Ok(b) && rows == old(rows) + [b] && nextId == old(nextId) + 1
    {
      r := Insert(Booked(nextId, data), parents);
    }

    /** The store's slot block (the service calls a `blockSlot` the
        repository does not define; this is the effect it relies on). */
    method InsertBlock(data: BlockSlotCreate, parents: Parents) returns (r: Result<Appointment, Failure>)
      requires Valid()
      modifies this
      ensures Valid() && consultations == old(consultations) && summaries == old(summaries)
      ensures var b := Block(old(nextId), data);
        if MissingParent(parents, b).Some? then
          r == Err(ForeignKey(MissingParent(parents, b).value)) && rows == old(rows) && nextId == old(nextId)
        else
          r == Ok(b) && rows == old(rows) + [b] && nextId == old(nextId) + 1
    {
      r := Insert(Block(nextId, data), parents);
    }

    /** `updateAppointmentStatus`: sets the status of row `id`, whatever it
        was, and answers whether a row matched. */
    method UpdateStatus(id: int, st: Status) returns (matched: bool)
      requires Valid()
      modifies this
      ensures Valid() && nextId == old(nextId) && consultations == old(consultations) && summaries == old(summaries)
      ensures matched <==> Find(old(rows), id).Some?
      ensures rows == SetStatus(old(rows), id, st)
      ensures matched ==> Find(rows, id) == Some(Find(old(rows), id).value.(status := st))
    {
      matched := Find(rows, id).Some?;
      if matched {
        FindReplaced(rows, Find(rows, id).value, Find(rows, id).value.(status := st));
      }
      SetStatusKeepsIds(rows, id, st, nextId);
      rows := SetStatus(rows, id, st);
    }

    /** `updateAppointment`: applies the entries of the patch to row `id`
        one `column = ?` at a time. An empty patch or a missing row changes
        nothing and answers with what `getAppointmentById` reads. */
    method Update(id: int, fields: seq<AppointmentField>, parents: Parents) returns (r: Result<Option<Appointment>, Failure>)
      requires Valid()
      modifies this
      ensures Valid() && nextId == old(nextId) && consultations == old(consultations) && summaries == old(summaries)
      ensures (fields == [] || Find(old(rows), id).None?) ==> r == Ok(Find(old(rows), id)) && rows == old(rows)
      ensures fields != [] && Find(old(rows), id).Some? ==>
        var b := ApplyFields(Find(old(rows), id).value, fields);
        if MissingParent(parents, b).Some? then
          r == Err(ForeignKey(MissingParent(parents, b).value)) && rows == old(rows)
        else
          r == Ok(Some(b)) && rows == Replace(old(rows), id, b) && Find(rows, id) == Some(b)
    {
      if |fields| == 0 {
        return Ok(Find(rows, id));
      }
      var current := Find(rows, id);
      if current.None? {
        return Ok(None);
      }
      var a := current.value;
      var b := a;
      var k := 0;
      while k < |fields|
        invariant 0 <= k <= |fields|
        invariant b == ApplyFields(a, fields[..k])
      {
        assert fields[..k + 1][..k] == fields[..k];
        b := ApplyField(b, fields[k]);
        k := k + 1;
      }
      assert fields[..k] == fields;
      var missing := MissingParent(parents, b);
      if missing.Some? {
        return Err(ForeignKey(missing.value));
      }
      PatchSemantics(a, fields, DoctorColumn);
      FindReplaced(rows, a, b);
      ReplaceKeepsIds(rows, id, b, nextId);
      rows := Replace(rows, id, b);
      r := Ok(Some(b));
    }

    /** `deleteAppointment`: true iff a row was removed. An appointment a
        consultation record points at cannot be deleted. */
    method Delete(id: int) returns (r: Result<bool, Failure>)
      requires Valid()
      modifies this
      ensures Valid() && nextId == old(nextId) && consultations == old(consultations) && summaries == old(summaries)
      ensures Find(old(rows), id).None? ==> r == Ok(false) && rows == old(rows)
      ensures Find(old(rows), id).Some? && (exists c :: c in consultations && c.detail.appointmentId == id) ==>
        r == Err(RowReferenced) && rows == old(rows)
      ensures Find(old(rows), id).Some? && (forall c :: c in consultations ==> c.detail.appointmentId != id) ==>
        r == Ok(true) && rows == Without(old(rows), id)
      ensures r == Ok(true) ==> Find(rows, id).None?
    {
      if Find(rows, id).None? {
        return Ok(false);
      }
      if exists c :: c in consultations && c.detail.appointmentId == id {
        return Err(RowReferenced);
      }
      WithoutKeepsIds(rows, id);
      rows := Without(rows, id);
      r := Ok(true);
    }

    /** The store's completion transaction (called by the service, not
        defined by the repository): records the consultation detail and the
        optional health summary and marks the appointment 'completado'. */
    method CompleteConsultation(consultation: ConsultationDetailCreate, summary: Option<HealthSummaryCreate>)
      returns (record: ConsultationRecord)
      requires Valid()
      modifies this
      ensures Valid() && nextId == old(nextId)
      ensures record == ConsultationRecord(|old(consultations)| + 1, consultation)
      ensures consultations == old(consultations) + [record]
      ensures summaries == old(summaries) + (if summary.Some? then [summary.value] else [])
      ensures rows == SetStatus(old(rows), consultation.appointmentId, Completado)
    {
      record := ConsultationRecord(|consultations| + 1, consultation);
      consultations := consultations + [record];
      if summary.Some? {
        summaries := summaries + [summary.value];
      }
      SetStatusKeepsIds(rows, consultation.appointmentId, Completado, nextId);
      rows := SetStatus(rows, consultation.appointmentId, Completado);
    }
  }

  lemma FindAppended(rows: seq<Appointment>, b: Appointment)
    requires Find(rows, b.id).None?
    ensures Find(rows + [b], b.id) == Some(b)
  {
    if rows != [] {
      assert (rows + [b])[1..] == rows[1..] + [b];
      FindAppended(rows[1..], b);
    }
  }

  lemma {:induction false} FindReplaced(rows: seq<Appointment>, a: Appointment, b: Appointment)
    requires Find(rows, a.id) == Some(a) && b.id == a.id
    ensures Find(Replace(rows, a.id, b), a.id) == Some(b)
    ensures SetStatus(rows, a.id, b.status) == Replace(rows, a.id, b) ==> Find(SetStatus(rows, a.id, b.status), a.id) == Some(b)
  {
    if rows[0].id != a.id {
      assert Replace(rows, a.id, b)[1..] == Replace(rows[1..], a.id, b);
      FindReplaced(rows[1..], a, b);
    }
  }

  /** Replacing a row by one with the same identifier keeps every
      identifier where it was. */
  lemma ReplaceKeepsIds(rows: seq<Appointment>, id: int, b: Appointment, bound: int)
    requires UniqueIds(rows) && forall a :: a in rows ==> 1 <= a.id < bound
    requires b.id == id
    ensures UniqueIds(Replace(rows, id, b))
    ensures forall a :: a in Replace(rows, id, b) ==> 1 <= a.id < bound
  {
    var r := Replace(rows, id, b);
    forall a | a in r
      ensures 1 <= a.id < bound
    {
      var i :| 0 <= i < |r| && r[i] == a;
      assert rows[i] in rows;
    }
  }

  /** Setting a status keeps every identifier where it was. */
  lemma SetStatusKeepsIds(rows: seq<Appointment>, id: int, st: Status, bound: int)
    requires UniqueIds(rows) && forall a :: a in rows ==> 1 <= a.id < bound
    ensures UniqueIds(SetStatus(rows, id, st))
    ensures forall a :: a in SetStatus(rows, id, st) ==> 1 <= a.id < bound
  {
    var r := SetStatus(rows, id, st);
    forall a | a in r
      ensures 1 <= a.id < bound
    {
      var i :| 0 <= i < |r| && r[i] == a;
      assert rows[i] in rows;
    }
  }

  lemma {:induction false} WithoutKeepsIds(rows: seq<Appointment>, id: int)
    requires UniqueIds(rows)
    ensures UniqueIds(Without(rows, id))
  {
    if rows != [] {
      WithoutKeepsIds(rows[1..], id);
      var rest := Without(rows[1..], id);
      if rows[0].id != id {
        assert Without(rows, id) == [rows[0]] + rest;
        forall j | 0 <= j < |rest|
          ensures rest[j].id != rows[0].id
        {
          assert rest[j] in rows[1..];
        }
      } else {
        assert Without(rows, id) == rest;
      }
    }
  }
}
