/** The availability service: thin checks around the availability table and
    `generateTimeSlots`, which lays out the free slots of every weekday a
    doctor works. Its time helpers are unguarded copies of the ones the
    appointment service uses: an unparsable hour or minute yields `NaN`,
    which then fails every comparison of the slot walk. */
module AvailabilityService {
  import opened Base
  import opened Js
  import opened Models
  import opened AppointmentTime
  import opened AppointmentSlots
  import Avail = AvailabilityRepository

  const AvailabilityNotFound := "Availability not found"

  /** The unguarded `timeToMinutes`, in seconds: hour and minute must be
      numbers (a missing minute is `NaN`); a missing or unparsable seconds
      part counts as 0 (`s / 60 || 0`); parts after the third are ignored. */
  function ParseClock(t: string): (c: JsNum)
    ensures c.Num? <==> Number(Split(t, ':')[0]).Num? && |Split(t, ':')| >= 2 && Number(Split(t, ':')[1]).Num?
  {
    var parts := Split(t, ':');
    if |parts| < 2 then NaN
    else
      var h := Number(parts[0]);
      var m := Number(parts[1]);
      var s := if |parts| >= 3 then Number(parts[2]) else NaN;
      if h.NaN? || m.NaN? then NaN
      else Num(h.v * 3600 + m.v * 60 + (if s.Num? then s.v else 0))
  }

  /** The unguarded `minutesToTime`, in seconds. Its body is the guarded
      copy's without the early return, so for a non-negative time it
      writes the same text; a negative time is rendered with floor
      division for hours and minutes and JavaScript's signed remainder. */
  function ClockText(n: int): string
  {
    if n >= 0 then SecondsToTime(n)
    else Join([Pad(n / 3600), Pad(JsRem(n, 3600) / 60), Pad(JsRem(n, 60))], ':')
  }

  /** The numbers the walk reads from one rule; any of the four times may be `NaN`. */
  datatype Clocks = Clocks(start: JsNum, end: JsNum, restStart: JsNum, restEnd: JsNum, step: int)

  function ClocksOf(rule: Availability): Clocks
  {
    Clocks(ParseClock(rule.startTime), ParseClock(rule.endTime),
      ParseClock(rule.restStartTime), ParseClock(rule.restEndTime), 60 * rule.periodTime)
  }

  /** `x < b`, `x <= b`, `x >= b` and `x > b` against a number that may be
      `NaN`: every comparison with `NaN` is false. */
  predicate Below(x: int, b: JsNum) { b.Num? && x < b.v }
  predicate AtMost(x: int, b: JsNum) { b.Num? && x <= b.v }
  predicate AtLeast(x: int, b: JsNum) { b.Num? && x >= b.v }
  predicate Above(x: int, b: JsNum) { b.Num? && x > b.v }

  /** The three-way rest test for the slot starting at `s`. */
  predicate Overlaps(c: Clocks, s: int)
  {
    var e := s + c.step;
    (AtLeast(s, c.restStart) && Below(s, c.restEnd)) || (Above(e, c.restStart) && AtMost(e, c.restEnd))
    || (Below(s, c.restStart) && Above(e, c.restEnd))
  }

  /** The cursor's next position. */
  function Next(c: Clocks, s: int): (next: int)
    requires c.step > 0
    ensures next > s
    ensures !Overlaps(c, s) && c.restStart.Num? ==> next >= s + c.step
  {
    var e := s + c.step;
    if AtMost(e, c.restStart) then e else if Below(s, c.restEnd) then c.restEnd.v else e
  }

  /** The starts the walk keeps from cursor `s` on. Each kept slot lies
      inside the working hours and passes the rest test, and the starts
      ascend. Kept slots are at least one period apart when the rest start
      parses; when it does not, the jump to the rest end can land inside
      the slot just kept. */
  function Starts(c: Clocks, s: int): (xs: seq<int>)
    requires c.step > 0
    ensures forall i :: 0 <= i < |xs| ==>
      s <= xs[i] && AtMost(xs[i] + c.step, c.end) && !Overlaps(c, xs[i])
    ensures forall i, j :: 0 <= i < j < |xs| ==> xs[i] < xs[j]
    ensures c.restStart.Num? ==> forall i, j :: 0 <= i < j < |xs| ==> xs[i] + c.step <= xs[j]
    decreases if c.end.Num? then c.end.v - s else 0
  {
    if !AtMost(s + c.step, c.end) then []
    else (if Overlaps(c, s) then [] else [s]) + Starts(c, Next(c, s))
  }

  /** The walk of one rule: nothing when the work start is `NaN`. */
  function DayStarts(c: Clocks): seq<int>
    requires c.step > 0
  {
    if c.start.NaN? then [] else Starts(c, c.start.v)
  }

  /** The slots pushed for the given starts. */
  function RenderClock(starts: seq<int>, step: int): seq<TimeSlot>
  {
    if starts == [] then [] else [ClockSlot(starts[0], step)] + RenderClock(starts[1..], step)
  }

  /** One slot per start, in order. */
  lemma {:induction false} RenderClockShape(starts: seq<int>, step: int)
    ensures |RenderClock(starts, step)| == |starts|
    ensures forall i :: 0 <= i < |starts| ==> RenderClock(starts, step)[i] == ClockSlot(starts[i], step)
  {
    if starts != [] {
      var tail := starts[1..];
      var rest := RenderClock(tail, step);
      RenderClockShape(tail, step);
      var all := RenderClock(starts, step);
      assert all == [ClockSlot(starts[0], step)] + rest;
      forall i | 1 <= i < |starts|
        ensures all[i] == ClockSlot(starts[i], step)
      {
        assert all[i] == rest[i - 1];
        assert tail[i - 1] == starts[i];
      }
    }
  }

  /** The slot `{ start, end }` pushed for the start `x`. */
  function ClockSlot(x: int, step: int): TimeSlot
  {
    TimeSlot(ClockText(x), ClockText(x + step))
  }

  /** The slots one rule contributes to its weekday's list. A period
      that is not positive never gets here: the walk would not end. */
  function RuleSlots(rule: Availability): seq<TimeSlot>
  {
    if rule.periodTime <= 0 then []
    else
      var c := ClocksOf(rule);
      RenderClock(DayStarts(c), c.step)
  }

  /** The walk of every rule, in order. */
  function Walks(rules: seq<Availability>): (lists: seq<seq<TimeSlot>>)
    ensures |lists| == |rules|
  {
    if rules == [] then [] else Walks(rules[..|rules| - 1]) + [RuleSlots(rules[|rules| - 1])]
  }

  lemma WalksAppend(rules: seq<Availability>, r: Availability)
    ensures Walks(rules + [r]) == Walks(rules) + [RuleSlots(r)]
  {
    assert (rules + [r])[..|rules|] == rules;
  }

  /** `slotsByDay` after the rules have been walked in order: each rule
      first makes sure its weekday has a list, then appends its own slots,
      `lists[k]` for `rules[k]`. */
  function SlotsByDay(rules: seq<Availability>, lists: seq<seq<TimeSlot>>): map<Weekday, seq<TimeSlot>>
    requires |lists| == |rules|
  {
    if rules == [] then map[]
    else
      var n := |rules| - 1;
      var m := SlotsByDay(rules[..n], lists[..n]);
      m[rules[n].day := (if rules[n].day in m then m[rules[n].day] else []) + lists[n]]
  }

  lemma SlotsByDayAppend(rules: seq<Availability>, lists: seq<seq<TimeSlot>>, r: Availability, l: seq<TimeSlot>)
    requires |lists| == |rules|
    ensures var m := SlotsByDay(rules, lists);
      SlotsByDay(rules + [r], lists + [l]) == m[r.day := (if r.day in m then m[r.day] else []) + l]
  {
    assert (rules + [r])[..|rules|] == rules;
    assert (lists + [l])[..|rules|] == lists;
  }

  /** An independent reading of one weekday's list: the lists of that
      day's rules, concatenated in repository order. */
  function DaySlots(rules: seq<Availability>, lists: seq<seq<TimeSlot>>, d: Weekday): seq<TimeSlot>
    requires |lists| == |rules|
  {
    if rules == [] then []
    else (if rules[0].day == d then lists[0] else []) + DaySlots(rules[1..], lists[1..], d)
  }

  lemma {:induction false} DaySlotsAppend(rules: seq<Availability>, lists: seq<seq<TimeSlot>>,
      r: Availability, l: seq<TimeSlot>, d: Weekday)
    requires |lists| == |rules|
    ensures DaySlots(rules + [r], lists + [l], d) == DaySlots(rules, lists, d) + (if r.day == d then l else [])
  {
    if rules != [] {
      assert (rules + [r])[1..] == rules[1..] + [r];
      assert (lists + [l])[1..] == lists[1..] + [l];
      DaySlotsAppend(rules[1..], lists[1..], r, l, d);
    }
  }

  /** Every weekday with a rule has a list, even one no slot fits in, and
      that list is the slots of the day's rules in repository order. */
  lemma {:induction false} SlotsByDayPerDay(rules: seq<Availability>, lists: seq<seq<TimeSlot>>, d: Weekday)
    requires |lists| == |rules|
    ensures d in SlotsByDay(rules, lists) <==> exists r :: r in rules && r.day == d
    ensures d in SlotsByDay(rules, lists) ==> SlotsByDay(rules, lists)[d] == DaySlots(rules, lists, d)
  {
    if rules != [] {
      var n := |rules| - 1;
      assert rules == rules[..n] + [rules[n]];
      assert lists == lists[..n] + [lists[n]];
      SlotsByDayPerDay(rules[..n], lists[..n], d);
      DaySlotsAppend(rules[..n], lists[..n], rules[n], lists[n], d);
      if rules[n].day == d && d !in SlotsByDay(rules[..n], lists[..n]) {
        DaySlotsNone(rules[..n], lists[..n], d);
      }
    }
  }

  lemma {:induction false} DaySlotsNone(rules: seq<Availability>, lists: seq<seq<TimeSlot>>, d: Weekday)
    requires |lists| == |rules|
    requires forall x :: x in rules ==> x.day != d
    ensures DaySlots(rules, lists, d) == []
  {
    if rules != [] {
      assert rules[0] in rules;
      assert forall x :: x in rules[1..] ==> x in rules;
      DaySlotsNone(rules[1..], lists[1..], d);
    }
  }

  /** A rule whose work start or end does not parse contributes no slot. */
  lemma UnparsableHoursGiveNoSlots(rule: Availability)
    requires ParseClock(rule.startTime).NaN? || ParseClock(rule.endTime).NaN?
    ensures RuleSlots(rule) == []
  {
  }

  /** With all four times parsed, the walk is the appointment service's walk
      without reservations. */
  lemma {:induction false} WalksAgree(c: Clocks, s: int)
    requires c.step > 0 && c.start.Num? && c.end.Num? && c.restStart.Num? && c.restEnd.Num?
    ensures Starts(c, s) == FreeStarts(Window(c.start.v, c.end.v, c.restStart.v, c.restEnd.v, c.step), {}, s)
    decreases c.end.v - s
  {
    var w := Window(c.start.v, c.end.v, c.restStart.v, c.restEnd.v, c.step);
    if s + c.step <= c.end.v {
      assert Overlaps(c, s) == OverlapsRest(w, s);
      assert Next(c, s) == Advance(w, s);
      WalksAgree(c, Next(c, s));
    }
  }

  /** A canonical "HH:MM:SS" parses to the same value as in the guarded copy. */
  lemma ParseCanonical(t: string)
    requires Canonical(t)
    ensures ParseClock(t) == Num(TimeToSeconds(t))
  {
    CanonicalSeconds(t);
    CanonicalFields(t);
    var parts := Split(t, ':');
    TwoDigitField(parts[0]);
    TwoDigitField(parts[1]);
    TwoDigitField(parts[2]);
  }

  /** Canonical stored times give the walk the same four bounds as the
      guarded copy's window. */
  lemma CanonicalClocks(rule: Availability)
    requires Canonical(rule.startTime) && Canonical(rule.endTime)
    requires Canonical(rule.restStartTime) && Canonical(rule.restEndTime)
    ensures var w := WindowOf(rule);
      ClocksOf(rule) == Clocks(Num(w.start), Num(w.end), Num(w.restStart), Num(w.restEnd), w.step)
  {
    ParseCanonical(rule.startTime);
    ParseCanonical(rule.endTime);
    ParseCanonical(rule.restStartTime);
    ParseCanonical(rule.restEndTime);
  }

  /** From midnight on, the unguarded formatting and the guarded one print the same slots. */
  lemma {:induction false} RenderNonNegative(starts: seq<int>, step: int)
    requires step >= 0
    requires forall i :: 0 <= i < |starts| ==> starts[i] >= 0
    ensures RenderClock(starts, step) == Render(starts, step)
  {
    RenderClockShape(starts, step);
    var a, b := RenderClock(starts, step), Render(starts, step);
    forall i | 0 <= i < |starts|
      ensures a[i] == b[i]
    {
      assert a[i] == ClockSlot(starts[i], step);
    }
  }

  /** For a rule whose four times are canonical, the availability
      service's slots for its weekday are the appointment service's free
      slots with nothing reserved. */
  lemma RuleSlotsAgree(rule: Availability)
    requires rule.periodTime > 0
    requires Canonical(rule.startTime) && Canonical(rule.endTime)
    requires Canonical(rule.restStartTime) && Canonical(rule.restEndTime)
    ensures RuleSlots(rule) == FreeSlots(rule, {})
  {
    CanonicalClocks(rule);
    CanonicalSeconds(rule.startTime);
    var c := ClocksOf(rule);
    var w := WindowOf(rule);
    WalksAgree(c, w.start);
    assert DayStarts(c) == FreeStarts(w, {}, w.start);
    RenderNonNegative(FreeStarts(w, {}, w.start), w.step);
  }

  /** 09:00 to 17:00 with rest 13:00 to 14:00 in 30-minute steps: eight
      slots from 09:00 to 12:30, then six from 14:00 to 16:30. */
  lemma WorkedExampleDay()
    ensures var c := Clocks(Num(9 * 3600), Num(17 * 3600), Num(13 * 3600), Num(14 * 3600), 30 * 60);
      var xs := DayStarts(c);
      |xs| == 14
      && (forall i :: 0 <= i < 8 ==> xs[i] == 9 * 3600 + i * 1800)
      && (forall i :: 8 <= i < 14 ==> xs[i] == 14 * 3600 + (i - 8) * 1800)
  {
    var c := Clocks(Num(9 * 3600), Num(17 * 3600), Num(13 * 3600), Num(14 * 3600), 30 * 60);
    WalksAgree(c, 9 * 3600);
    WorkedExample();
  }

  /** A rest start that does not parse turns the rest test off, yet the
      cursor still jumps to the rest end, which can fall inside the slot
      just kept: from 0 with rest end 10 and period 30, the slots starting
      at 0 and at 10 overlap. */
  lemma UnparsedRestStart()
    ensures Starts(Clocks(Num(0), Num(100), NaN, Num(10), 30), 0) == [0, 10, 40, 70]
  {
    var c := Clocks(Num(0), Num(100), NaN, Num(10), 30);
    assert Starts(c, 100) == [];
    assert Starts(c, 70) == [70];
    assert Starts(c, 40) == [40, 70];
    assert Starts(c, 10) == [10, 40, 70];
  }

  /** "HH:MM" reads as whole hours and minutes in both copies of
      `timeToMinutes`: the missing seconds count as 0. */
  lemma ParseShort(hh: string, mm: string)
    requires |hh| == 2 && IsDigit(hh[0]) && IsDigit(hh[1])
    requires |mm| == 2 && IsDigit(mm[0]) && IsDigit(mm[1])
    ensures var v := (10 * DigitValue(hh[0]) + DigitValue(hh[1])) * 3600 + (10 * DigitValue(mm[0]) + DigitValue(mm[1])) * 60;
      ParseClock(hh + ":" + mm) == Num(v) && TimeToSeconds(hh + ":" + mm) == v
  {
    assert Join([mm], ':') == mm;
    assert Join([hh, mm], ':') == hh + ":" + mm;
    SplitJoin([hh, mm], ':');
    TwoDigitField(hh);
    TwoDigitField(mm);
  }

  /** `verifyDoctorExists` against the identifiers the doctor repository knows. */
  function DoctorCheck(doctors: set<int>, doctorId: int): (rejection: Option<Failure>)
    ensures rejection.None? <==> doctorId in doctors
    ensures rejection.Some? ==> rejection.value == Raised(DoctorNotFound(doctorId))
  {
    if doctorId in doctors then None else Some(Raised(DoctorNotFound(doctorId)))
  }

  /** No doctor entry of the patch comes after position `i`. */
  predicate NoDoctorAfter(fields: seq<AvailabilityField>, i: nat)
  {
    forall j :: i < j < |fields| ==> !fields[j].SetDoctor?
  }

  /** The doctor the patch's last doctor entry sets, when that one is
      non-zero (`if (data.doctor_id)`); none when the patch sets no doctor
      or its last doctor entry is 0. */
  function PatchedDoctor(fields: seq<AvailabilityField>): (d: Option<int>)
    ensures d.Some? ==>
      d.value != 0 && exists i :: 0 <= i < |fields| && fields[i] == SetDoctor(d.value) && NoDoctorAfter(fields, i)
    ensures d.None? ==>
      forall i :: 0 <= i < |fields| && fields[i].SetDoctor? && NoDoctorAfter(fields, i) ==> fields[i].doctorId == 0
  {
    if fields == [] then None
    else
      var last := fields[|fields| - 1];
      if last.SetDoctor? then (if last.doctorId != 0 then Some(last.doctorId) else None)
      else
        var d := PatchedDoctor(fields[..|fields| - 1]);
        assert forall j :: 0 <= j < |fields| - 1 ==> fields[j] == fields[..|fields| - 1][j];
        d
  }

  class Service {
    var availabilities: Avail.AvailabilityTable
    /** The identifiers the doctor repository knows. */
    var doctors: set<int>

    ghost predicate Valid()
      reads this, availabilities
    {
      availabilities.Valid()
    }

    constructor (availabilities: Avail.AvailabilityTable, doctors: set<int>)
      requires availabilities.Valid()
      ensures Valid() && this.availabilities == availabilities && this.doctors == doctors
    {
      this.availabilities := availabilities;
      this.doctors := doctors;
    }

    /** `createAvailability`: the doctor must exist, then the row is inserted. */
    method CreateAvailability(data: AvailabilityCreate) returns (r: Result<Availability, Failure>)
      requires Valid()
      modifies availabilities
      ensures Valid()
      ensures data.doctorId !in doctors ==>
        r == Err(Raised(DoctorNotFound(data.doctorId))) && availabilities.rows == old(availabilities.rows)
      ensures data.doctorId in doctors ==>
        r == Ok(Avail.Stored(old(availabilities.nextId), data)) && availabilities.rows == old(availabilities.rows) + [r.value]
    {
      var rejection := DoctorCheck(doctors, data.doctorId);
      if rejection.Some? {
        return Err(rejection.value);
      }
      r := availabilities.Create(data, doctors);
    }

    /** `createBulkAvailabilities`: only the first item's doctor is checked,
        and an empty list skips the check; a later item naming an unknown
        doctor is refused by the database's foreign key and rolls the batch
        back. A batch that succeeds stores every item but answers with an
        empty list (see `AvailabilityTable.CreateBulk`). */
    method CreateBulkAvailabilities(items: seq<AvailabilityCreate>) returns (r: Result<seq<Availability>, Failure>)
      requires Valid()
      modifies availabilities
      ensures Valid()
      ensures |items| > 0 && items[0].doctorId !in doctors ==>
        r == Err(Raised(DoctorNotFound(items[0].doctorId))) && availabilities.rows == old(availabilities.rows)
      ensures |items| > 0 && items[0].doctorId in doctors && (exists k :: 0 < k < |items| && items[k].doctorId !in doctors) ==>
        r == Err(ForeignKey("doctor_id")) && availabilities.rows == old(availabilities.rows)
      ensures (forall k :: 0 <= k < |items| ==> items[k].doctorId in doctors) ==>
        r == Ok([]) && availabilities.rows == old(availabilities.rows) + Avail.StoredBatch(old(availabilities.nextId), items)
    {
      if |items| > 0 {
        var rejection := DoctorCheck(doctors, items[0].doctorId);
        if rejection.Some? {
          return Err(rejection.value);
        }
      }
      r := availabilities.CreateBulk(items, doctors);
    }

    /** `getAvailabilityById`: a missing row is an error. */
    function GetAvailabilityById(id: int): (r: Result<Availability, Failure>)
      reads this, availabilities
      ensures r.Err? <==> forall a :: a in availabilities.rows ==> a.id != id
      ensures r.Err? ==> r.error == Raised(AvailabilityNotFound)
      ensures r.Ok? ==> r.value in availabilities.rows && r.value.id == id
    {
      match availabilities.GetById(id)
      case None => Err(Raised(AvailabilityNotFound))
      case Some(a) => Ok(a)
    }

    /** `updateAvailability`: a non-zero doctor in the patch must exist; a
        missing row is "Availability not found"; an empty patch returns the
        row unchanged. */
    method UpdateAvailability(id: int, fields: seq<AvailabilityField>) returns (r: Result<Availability, Failure>)
      requires Valid()
      modifies availabilities
      ensures Valid()
      ensures PatchedDoctor(fields).Some? && PatchedDoctor(fields).value !in doctors ==>
        r == Err(Raised(DoctorNotFound(PatchedDoctor(fields).value))) && availabilities.rows == old(availabilities.rows)
      ensures r.Err? ==> availabilities.rows == old(availabilities.rows)
      ensures Avail.Find(old(availabilities.rows), id).None? ==> r.Err?
      ensures (PatchedDoctor(fields).None? || PatchedDoctor(fields).value in doctors) ==>
        match Avail.Find(old(availabilities.rows), id)
        case None => r == Err(Raised(AvailabilityNotFound))
        case Some(a) =>
          if fields == [] then r == Ok(a)
          else
            var b := Avail.ApplyFields(a, fields);
            if b.doctorId != a.doctorId && b.doctorId !in doctors then r == Err(ForeignKey("doctor_id"))
            else r == Ok(b) && availabilities.rows == Avail.Replace(old(availabilities.rows), id, b)
    {
      var patched := PatchedDoctor(fields);
      if patched.Some? {
        var rejection := DoctorCheck(doctors, patched.value);
        if rejection.Some? {
          return Err(rejection.value);
        }
      }
      var updated := availabilities.Update(id, fields, doctors);
      if updated.Err? {
        return Err(updated.error);
      }
      if updated.value.None? {
        var existing := GetAvailabilityById(id);
        if existing.Err? {
          return Err(existing.error);
        }
        assert false;
      }
      r := Ok(updated.value.value);
    }

    /** `deleteAvailability`: true once the row is gone; a missing row is
        "Availability not found". `referenced` holds the rules appointments
        still point to. */
    method DeleteAvailability(id: int, referenced: set<int>) returns (r: Result<bool, Failure>)
      requires Valid()
      modifies availabilities
      ensures Valid()
      ensures Avail.Find(old(availabilities.rows), id).None? ==>
        r == Err(Raised(AvailabilityNotFound)) && availabilities.rows == old(availabilities.rows)
      ensures Avail.Find(old(availabilities.rows), id).Some? && id in referenced ==>
        r == Err(RowReferenced) && availabilities.rows == old(availabilities.rows)
      ensures Avail.Find(old(availabilities.rows), id).Some? && id !in referenced ==>
        r == Ok(true) && availabilities.rows == Avail.Without(old(availabilities.rows), id)
    {
      var success := availabilities.Delete(id, referenced);
      if success.Err? {
        return Err(success.error);
      }
      if !success.value {
        var existing := GetAvailabilityById(id);
        if existing.Err? {
          return Err(existing.error);
        }
        assert false;
      }
      r := Ok(true);
    }

    /** `generateTimeSlots`: for each of the doctor's rules, in weekday
        order, the rule's weekday gets a list if it has none, and the walk
        appends every slot that fits the working hours and misses the rest
        window. */
    method GenerateTimeSlots(doctorId: int) returns (r: Result<map<Weekday, seq<TimeSlot>>, Failure>)
      requires Valid()
      requires forall a :: a in availabilities.rows && a.doctorId == doctorId ==> a.periodTime > 0
      ensures doctorId !in doctors ==> r == Err(Raised(DoctorNotFound(doctorId)))
      ensures doctorId in doctors ==>
        var rules := availabilities.AllByDoctor(doctorId);
        r == Ok(SlotsByDay(rules, Walks(rules)))
    {
      var rejection := DoctorCheck(doctors, doctorId);
      if rejection.Some? {
        return Err(rejection.value);
      }
      var rules := availabilities.AllByDoctor(doctorId);
      var slotsByDay := LayOut(rules);
      r := Ok(slotsByDay);
    }
  }

  /** The outer loop of `generateTimeSlots`: each rule in turn makes sure
      its weekday has a list and appends its walk to it. */
  method LayOut(rules: seq<Availability>) returns (slotsByDay: map<Weekday, seq<TimeSlot>>)
    requires forall r :: r in rules ==> r.periodTime > 0
    ensures slotsByDay == SlotsByDay(rules, Walks(rules))
  {
    slotsByDay := map[];
    ghost var lists: seq<seq<TimeSlot>> := [];
    for i := 0 to |rules|
      invariant lists == Walks(rules[..i])
      invariant slotsByDay == SlotsByDay(rules[..i], lists)
    {
      var avail := rules[i];
      var day := avail.day;
      ghost var before := slotsByDay;
      slotsByDay := slotsByDay[day := if day in slotsByDay then slotsByDay[day] else []];
      var slots := RuleWalk(avail);
      DefaultThenAppend(before, day, slots);
      slotsByDay := slotsByDay[day := slotsByDay[day] + slots];
      LayOutStep(rules, i, lists, slots);
      lists := lists + [slots];
    }
    assert rules[..|rules|] == rules;
  }

  /** Defaulting a key to the empty list and then appending to it is one update. */
  lemma DefaultThenAppend<K, V>(m: map<K, seq<V>>, k: K, l: seq<V>)
    ensures var m1 := m[k := if k in m then m[k] else []];
      m1[k := m1[k] + l] == m[k := (if k in m then m[k] else []) + l]
  {
  }

  /** One turn of `LayOut`'s loop: rule `i` appends its own walk to its weekday's list. */
  lemma LayOutStep(rules: seq<Availability>, i: nat, lists: seq<seq<TimeSlot>>, slots: seq<TimeSlot>)
    requires i < |rules| && lists == Walks(rules[..i]) && slots == RuleSlots(rules[i])
    ensures lists + [slots] == Walks(rules[..i + 1])
    ensures var m := SlotsByDay(rules[..i], lists);
      SlotsByDay(rules[..i + 1], lists + [slots])
        == m[rules[i].day := (if rules[i].day in m then m[rules[i].day] else []) + slots]
  {
    assert rules[..i + 1] == rules[..i] + [rules[i]];
    SlotsByDayAppend(rules[..i], lists, rules[i], slots);
    WalksAppend(rules[..i], rules[i]);
  }

  /** The walk of one rule, from its stored times. */
  method RuleWalk(rule: Availability) returns (slots: seq<TimeSlot>)
    requires rule.periodTime > 0
    ensures slots == RuleSlots(rule)
  {
    slots := WalkRule(ClocksOf(rule));
  }

  method WalkRule(c: Clocks) returns (slots: seq<TimeSlot>)
    requires c.step > 0
    ensures slots == RenderClock(DayStarts(c), c.step)
  {
    ghost var kept: seq<int> := [];
    var cursor := c.start;
    slots := [];
    while cursor.Num? && AtMost(cursor.v + c.step, c.end)
      invariant slots == RenderClock(kept, c.step)
      invariant kept + Rest(c, cursor) == DayStarts(c)
      decreases if cursor.Num? && c.end.Num? then c.end.v - cursor.v else 0
    {
      var slotStart := cursor.v;
      assert kept + Starts(c, slotStart) == DayStarts(c);
      var slotEnd := slotStart + c.step;
      var overlapsRest := (AtLeast(slotStart, c.restStart) && Below(slotStart, c.restEnd))
        || (Above(slotEnd, c.restStart) && AtMost(slotEnd, c.restEnd))
        || (Below(slotStart, c.restStart) && Above(slotEnd, c.restEnd));
      assert overlapsRest == Overlaps(c, slotStart);
      WalkStep(c, kept, slotStart);
      if !overlapsRest {
        RenderSnoc(kept, slotStart, c.step);
        slots := slots + [ClockSlot(slotStart, c.step)];
        kept := kept + [slotStart];
      }
      var next: int;
      if AtMost(slotEnd, c.restStart) {
        next := slotEnd;
      } else if Below(slotStart, c.restEnd) {
        next := c.restEnd.v;
      } else {
        next := slotEnd;
      }
      assert next == Next(c, slotStart);
      cursor := Num(next);
    }
    if cursor.Num? {
      StartsDone(c, cursor.v);
    }
    assert kept == DayStarts(c);
  }

  /** One turn of the walk keeps its invariant: the kept starts followed
      by the walk from the next cursor are still the day's starts. */
  lemma WalkStep(c: Clocks, kept: seq<int>, s: int)
    requires c.step > 0 && AtMost(s + c.step, c.end)
    ensures kept + Starts(c, s) == (if Overlaps(c, s) then kept else kept + [s]) + Starts(c, Next(c, s))
  {
    if Overlaps(c, s) {
      StartsDropped(c, s);
    } else {
      StartsKept(c, s);
      Regroup(kept, s, Starts(c, Next(c, s)));
    }
  }

  /** The starts still to come from a cursor that may be `NaN`. */
  function Rest(c: Clocks, cursor: JsNum): seq<int>
    requires c.step > 0
  {
    if cursor.Num? then Starts(c, cursor.v) else []
  }

  lemma StartsDone(c: Clocks, s: int)
    requires c.step > 0 && !AtMost(s + c.step, c.end)
    ensures Starts(c, s) == []
  {
  }

  lemma StartsKept(c: Clocks, s: int)
    requires c.step > 0 && AtMost(s + c.step, c.end) && !Overlaps(c, s)
    ensures Starts(c, s) == [s] + Starts(c, Next(c, s))
  {
  }

  lemma StartsDropped(c: Clocks, s: int)
    requires c.step > 0 && AtMost(s + c.step, c.end) && Overlaps(c, s)
    ensures Starts(c, s) == Starts(c, Next(c, s))
  {
  }

  /** Rendering one more start appends its slot. */
  lemma {:induction false} RenderSnoc(a: seq<int>, x: int, step: int)
    ensures RenderClock(a + [x], step) == RenderClock(a, step) + [ClockSlot(x, step)]
  {
    if a != [] {
      assert (a + [x])[1..] == a[1..] + [x];
      RenderSnoc(a[1..], x, step);
    }
  }

  lemma Regroup<T>(a: seq<T>, x: T, b: seq<T>)
    ensures a + ([x] + b) == (a + [x]) + b
  {
  }
}
