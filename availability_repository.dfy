/** The `availabilities` table and the repository over it: weekly rules
    saying when a doctor works, when the rest break is and how long a
    consultation slot lasts. The table is a sequence of rows; identifiers
    come from an auto-increment counter, and the `doctor_id` foreign key is
    checked against the set of existing doctors handed to each write. */
module AvailabilityRepository {
  import opened Base
  import opened Js
  import opened Sequences
  import opened Models

  /** The rule stored under `id` (`getAvailabilityById`). */
  function Find(rows: seq<Availability>, id: int): (r: Option<Availability>)
    ensures r.Some? ==> r.value in rows && r.value.id == id
    ensures r.None? <==> forall a :: a in rows ==> a.id != id
  {
    if rows == [] then None
    else if rows[0].id == id then Some(rows[0])
    else
      assert rows == [rows[0]] + rows[1..];
      Find(rows[1..], id)
  }

  /** No two rows share an identifier. */
  predicate UniqueIds(rows: seq<Availability>)
  {
    forall i, j :: 0 <= i < j < |rows| ==> rows[i].id != rows[j].id
  }

  /** `ORDER BY FIELD(day_of_week, 'monday', ..., 'sunday'), start_time ASC`. */
  predicate WeekOrder(a: Availability, b: Availability)
  {
    a.day.Index() < b.day.Index() || (a.day.Index() == b.day.Index() && StrLe(a.startTime, b.startTime))
  }

  lemma WeekOrderIsTotalPreorder()
    ensures TotalPreorder(WeekOrder)
  {
    forall a: Availability, b: Availability
      ensures WeekOrder(a, b) || WeekOrder(b, a)
    {
      StrLeTotalPreorder(a.startTime, b.startTime, b.startTime);
    }
    forall a: Availability, b: Availability, c: Availability | WeekOrder(a, b) && WeekOrder(b, c)
      ensures WeekOrder(a, c)
    {
      StrLeTotalPreorder(a.startTime, b.startTime, c.startTime);
    }
  }

  /** `getAllByDoctorId`: exactly the doctor's rules, Monday first, and
      within a day by start time. */
  function ByDoctor(rows: seq<Availability>, doctorId: int): (r: seq<Availability>)
    ensures forall a :: a in r <==> a in rows && a.doctorId == doctorId
    ensures SortedBy(r, WeekOrder)
    ensures multiset(r) == multiset(Filter(rows, (a: Availability) => a.doctorId == doctorId))
  {
    var mine := Filter(rows, (a: Availability) => a.doctorId == doctorId);
    WeekOrderIsTotalPreorder();
    SortBySorted(mine, WeekOrder);
    var r := SortBy(mine, WeekOrder);
    assert forall a :: a in r <==> a in multiset(r);
    assert forall a :: a in mine <==> a in multiset(mine);
    r
  }

  /** The stored row for an insert that received identifier `id`. */
  function Stored(id: int, data: AvailabilityCreate): Availability
  {
    Availability(id, data.doctorId, data.day, data.startTime, data.endTime,
                 data.restStartTime, data.restEndTime, data.periodTime)
  }

  /** The rows a batch insert stores: item `k` receives identifier `first + k`. */
  function StoredBatch(first: int, items: seq<AvailabilityCreate>): (b: seq<Availability>)
    ensures |b| == |items|
    ensures forall k :: 0 <= k < |items| ==> b[k].id == first + k && b[k] == Stored(first + k, items[k])
  {
    seq(|items|, k requires 0 <= k < |items| => Stored(first + k, items[k]))
  }

  lemma StoredBatchSnoc(first: int, items: seq<AvailabilityCreate>, i: nat)
    requires i < |items|
    ensures StoredBatch(first, items[..i + 1]) == StoredBatch(first, items[..i]) + [Stored(first + i, items[i])]
  {
  }

  /** `rows` with the row `id` replaced by `b`. */
  function Replace(rows: seq<Availability>, id: int, b: Availability): (r: seq<Availability>)
    ensures |r| == |rows|
    ensures forall i :: 0 <= i < |r| ==> r[i] == if rows[i].id == id then b else rows[i]
  {
    seq(|rows|, i requires 0 <= i < |rows| => if rows[i].id == id then b else rows[i])
  }

  /** `rows` without the row `id`. */
  function Without(rows: seq<Availability>, id: int): (r: seq<Availability>)
    ensures forall a :: a in r <==> a in rows && a.id != id
  {
    Filter(rows, (a: Availability) => a.id != id)
  }

  /** The columns a partial update may set. */
  datatype Column = DoctorIdColumn | DayColumn | StartColumn | EndColumn
                  | RestStartColumn | RestEndColumn | PeriodColumn

  datatype ColumnValue = IntValue(i: int) | TextValue(s: string) | DayValue(d: Weekday)

  function ColumnOf(f: AvailabilityField): Column
  {
    match f
    case SetDoctor(_) => DoctorIdColumn
    case SetDay(_) => DayColumn
    case SetStart(_) => StartColumn
    case SetEnd(_) => EndColumn
    case SetRestStart(_) => RestStartColumn
    case SetRestEnd(_) => RestEndColumn
    case SetPeriod(_) => PeriodColumn
  }

  function ValueOf(f: AvailabilityField): ColumnValue
  {
    match f
    case SetDoctor(v) => IntValue(v)
    case SetDay(v) => DayValue(v)
    case SetStart(v) => TextValue(v)
    case SetEnd(v) => TextValue(v)
    case SetRestStart(v) => TextValue(v)
    case SetRestEnd(v) => TextValue(v)
    case SetPeriod(v) => IntValue(v)
  }

  /** The value a row holds in column `c`. */
  function Get(a: Availability, c: Column): ColumnValue
  {
    match c
    case DoctorIdColumn => IntValue(a.doctorId)
    case DayColumn => DayValue(a.day)
    case StartColumn => TextValue(a.startTime)
    case EndColumn => TextValue(a.endTime)
    case RestStartColumn => TextValue(a.restStartTime)
    case RestEndColumn => TextValue(a.restEndTime)
    case PeriodColumn => IntValue(a.periodTime)
  }

  /** Two rows with the same identifier and the same column values are the same row. */
  lemma SameColumns(a: Availability, b: Availability)
    requires a.id == b.id
    requires forall c :: Get(a, c) == Get(b, c)
    ensures a == b
  {
    assert Get(a, DoctorIdColumn) == Get(b, DoctorIdColumn);
    assert Get(a, DayColumn) == Get(b, DayColumn);
    assert Get(a, StartColumn) == Get(b, StartColumn);
    assert Get(a, EndColumn) == Get(b, EndColumn);
    assert Get(a, RestStartColumn) == Get(b, RestStartColumn);
    assert Get(a, RestEndColumn) == Get(b, RestEndColumn);
    assert Get(a, PeriodColumn) == Get(b, PeriodColumn);
  }

  /** One `column = ?` assignment of the `UPDATE` statement. */
  function ApplyField(a: Availability, f: AvailabilityField): (b: Availability)
    ensures b.id == a.id
    ensures Get(b, ColumnOf(f)) == ValueOf(f)
    ensures forall c :: c != ColumnOf(f) ==> Get(b, c) == Get(a, c)
  {
    match f
    case SetDoctor(v) => a.(doctorId := v)
    case SetDay(v) => a.(day := v)
    case SetStart(v) => a.(startTime := v)
    case SetEnd(v) => a.(endTime := v)
    case SetRestStart(v) => a.(restStartTime := v)
    case SetRestEnd(v) => a.(restEndTime := v)
    case SetPeriod(v) => a.(periodTime := v)
  }

  /** All assignments of the `UPDATE`, left to right. */
  function ApplyFields(a: Availability, fs: seq<AvailabilityField>): Availability
  {
    if fs == [] then a else ApplyField(ApplyFields(a, fs[..|fs| - 1]), fs[|fs| - 1])
  }

  /** The value the last entry for column `c` supplies, if any entry does. */
  function LastValue(fs: seq<AvailabilityField>, c: Column): Option<ColumnValue>
  {
    if fs == [] then None
    else if ColumnOf(fs[|fs| - 1]) == c then Some(ValueOf(fs[|fs| - 1]))
    else LastValue(fs[..|fs| - 1], c)
  }

  /** An update sets exactly the supplied columns (the last entry for a
      column wins) and leaves the identifier and every other column alone. */
  lemma {:induction false} PatchSemantics(a: Availability, fs: seq<AvailabilityField>, c: Column)
    ensures ApplyFields(a, fs).id == a.id
    ensures Get(ApplyFields(a, fs), c) == match LastValue(fs, c) case Some(v) => v case None => Get(a, c)
  {
    if fs != [] {
      PatchSemantics(a, fs[..|fs| - 1], c);
    }
  }

  /** The database's foreign-key check on `doctor_id` for a stored row. */
  predicate DoctorKnown(doctors: set<int>, a: Availability)
  {
    a.doctorId in doctors
  }

  class AvailabilityTable {
    var rows: seq<Availability>
    /** The next `AUTO_INCREMENT` value. */
    var nextId: int

    ghost predicate Valid()
      reads this
    {
      nextId >= 1 && UniqueIds(rows) && (forall a :: a in rows ==> 1 <= a.id < nextId)
    }

    constructor ()
      ensures Valid() && rows == [] && nextId == 1
    {
      rows := [];
      nextId := 1;
    }

    /** `createAvailability`: inserts one row with the supplied fields and
        returns it as re-read, unless `doctor_id` names no doctor. */
    method Create(data: AvailabilityCreate, doctors: set<int>) returns (r: Result<Availability, Failure>)
      requires Valid()
      modifies this
      ensures Valid()
      ensures data.doctorId !in doctors ==> r == Err(ForeignKey("doctor_id")) && rows == old(rows) && nextId == old(nextId)
      ensures data.doctorId in doctors ==>
        r == Ok(Stored(old(nextId), data)) && rows == old(rows) + [r.value] && nextId == old(nextId) + 1
      ensures r.Ok? ==> Find(rows, r.value.id) == Some(r.value)
    {
      if data.doctorId !in doctors {
        return Err(ForeignKey("doctor_id"));
      }
      var created := Stored(nextId, data);
      assert Find(rows, nextId).None?;
      rows := rows + [created];
      nextId := nextId + 1;
      FindAppended(old(rows), created);
      r := Ok(created);
    }

    /** `createBulkAvailabilities`: inserts the items in order inside one
        transaction. The first item the database refuses rolls the whole
        batch back. After each insert the row is read back through
        `getAvailabilityById`, which takes another connection from the pool;
        that connection sees only committed rows (InnoDB's default isolation),
        and the batch commits only after the loop, so no read-back finds its
        row and the result list stays empty even though every row is stored.
        Identifiers handed out before a rollback are not reused. */
    method CreateBulk(items: seq<AvailabilityCreate>, doctors: set<int>) returns (r: Result<seq<Availability>, Failure>)
      requires Valid()
      modifies this
      ensures Valid()
      ensures (forall k :: 0 <= k < |items| ==> items[k].doctorId in doctors) <==> r.Ok?
      ensures r.Err? ==> r.error == ForeignKey("doctor_id") && rows == old(rows)
      ensures r.Ok? ==> r.value == [] && rows == old(rows) + StoredBatch(old(nextId), items)
      ensures nextId >= old(nextId)
    {
      var committed := rows;
      var results: seq<Availability> := [];
      var i := 0;
      while i < |items|
        invariant 0 <= i <= |items|
        invariant nextId == old(nextId) + i
        invariant rows == committed + StoredBatch(old(nextId), items[..i])
        invariant results == []
        invariant forall k :: 0 <= k < i ==> items[k].doctorId in doctors
        invariant Valid()
      {
        if items[i].doctorId !in doctors {
          rows := committed;
          return Err(ForeignKey("doctor_id"));
        }
        var created := Stored(nextId, items[i]);
        StoredBatchSnoc(old(nextId), items, i);
        rows := rows + [created];
        nextId := nextId + 1;
        // the read-back on another connection sees only `committed`
        var createdItem := Find(committed, created.id);
        match createdItem {
          case Some(row) => results := results + [row];
          case None =>
        }
        i := i + 1;
      }
      assert items[..i] == items;
      r := Ok(results);
    }

    /** `getAvailabilityById`. */
    function GetById(id: int): (r: Option<Availability>)
      reads this
      ensures r.None? <==> forall a :: a in rows ==> a.id != id
      ensures r.Some? ==> r.value in rows && r.value.id == id
    {
      Find(rows, id)
    }

    /** `getAllByDoctorId`. */
    function AllByDoctor(doctorId: int): (r: seq<Availability>)
      reads this
      ensures forall a :: a in r <==> a in rows && a.doctorId == doctorId
      ensures SortedBy(r, WeekOrder)
    {
      ByDoctor(rows, doctorId)
    }

    /** `updateAvailability`: applies the entries of the patch to row `id`
        one `column = ?` at a time. An empty patch or a missing row changes
        nothing and answers with what `getAvailabilityById` reads. */
    method Update(id: int, fields: seq<AvailabilityField>, doctors: set<int>) returns (r: Result<Option<Availability>, Failure>)
      requires Valid()
      modifies this
      ensures Valid() && nextId == old(nextId)
      ensures (fields == [] || Find(old(rows), id).None?) ==> r == Ok(Find(old(rows), id)) && rows == old(rows)
      ensures fields != [] && Find(old(rows), id).Some? ==>
        var a := Find(old(rows), id).value;
        var b := ApplyFields(a, fields);
        if b.doctorId != a.doctorId && b.doctorId !in doctors then
          r == Err(ForeignKey("doctor_id")) && rows == old(rows)
        else
          r == Ok(Some(b)) && rows == Replace(old(rows), id, b) && Find(rows, id) == Some(b)
    {
      if |fields| == 0 {
        return Ok(Find(rows, id));
      }
      var current := Find(rows, id);
      if current.None? {
        return Ok(None);
      }
      var a := current.value;
      var b := a;
      var k := 0;
      while k < |fields|
        invariant 0 <= k <= |fields|
        invariant b == ApplyFields(a, fields[..k])
      {
        assert fields[..k + 1][..k] == fields[..k];
        b := ApplyField(b, fields[k]);
        k := k + 1;
      }
      assert fields[..k] == fields;
      PatchSemantics(a, fields, DoctorIdColumn);
      if b.doctorId != a.doctorId && b.doctorId !in doctors {
        return Err(ForeignKey("doctor_id"));
      }
      ReplaceKeepsIds(rows, a, b);
      rows := Replace(rows, id, b);
      FindReplaced(old(rows), a, b);
      r := Ok(Some(b));
    }

    /** `deleteAvailability`: true iff a row was removed. A rule that
        appointments still reference cannot be deleted. */
    method Delete(id: int, referenced: set<int>) returns (r: Result<bool, Failure>)
      requires Valid()
      modifies this
      ensures Valid() && nextId == old(nextId)
      ensures Find(old(rows), id).None? ==> r == Ok(false) && rows == old(rows)
      ensures Find(old(rows), id).Some? && id in referenced ==> r == Err(RowReferenced) && rows == old(rows)
      ensures Find(old(rows), id).Some? && id !in referenced ==> r == Ok(true) && rows == Without(old(rows), id)
      ensures r == Ok(true) ==> Find(rows, id).None?
    {
      var current := Find(rows, id);
      if current.None? {
        return Ok(false);
      }
      if id in referenced {
        return Err(RowReferenced);
      }
      WithoutKeepsIds(rows, id);
      rows := Without(rows, id);
      r := Ok(true);
    }
  }

  lemma FindAppended(rows: seq<Availability>, b: Availability)
    requires Find(rows, b.id).None?
    ensures Find(rows + [b], b.id) == Some(b)
  {
    if rows != [] {
      assert (rows + [b])[1..] == rows[1..] + [b];
      FindAppended(rows[1..], b);
    }
  }

  lemma {:induction false} FindReplaced(rows: seq<Availability>, a: Availability, b: Availability)
    requires Find(rows, a.id) == Some(a) && b.id == a.id
    ensures Find(Replace(rows, a.id, b), a.id) == Some(b)
  {
    if rows[0].id != a.id {
      assert Replace(rows, a.id, b)[1..] == Replace(rows[1..], a.id, b);
      FindReplaced(rows[1..], a, b);
    }
  }

  lemma ReplaceKeepsIds(rows: seq<Availability>, a: Availability, b: Availability)
    requires b.id == a.id
    ensures forall i :: 0 <= i < |rows| ==> Replace(rows, a.id, b)[i].id == rows[i].id
    ensures forall x :: x in Replace(rows, a.id, b) ==> x == b || x in rows
  {
  }

  lemma {:induction false} WithoutKeepsIds(rows: seq<Availability>, id: int)
    requires UniqueIds(rows)
    ensures UniqueIds(Without(rows, id))
  {
    if rows != [] {
      WithoutKeepsIds(rows[1..], id);
      var rest := Without(rows[1..], id);
      if rows[0].id != id {
        assert Without(rows, id) == [rows[0]] + rest;
        forall j | 0 <= j < |rest|
          ensures rest[j].id != rows[0].id
        {
          assert rest[j] in rows[1..];
        }
      } else {
        assert Without(rows, id) == rest;
      }
    }
  }
}
