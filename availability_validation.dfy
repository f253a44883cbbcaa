/** The schemas of `src/validations/availability.ts`: the create schema with
    its start-before-end refinement, the partial update schema and the bulk
    array schema. */
module AvailabilityValidation {
  import opened Base
  import opened Js
  import opened Models
  import opened Schema
  import AvailabilityService
  import AvailabilityRepository

  /** `z.number().int().positive().multipleOf(5)`. */
  predicate PeriodValue(v: Option<Value>)
  {
    PositiveInt(v) && IntOf(v) % 5 == 0
  }

  /** `z.enum([...seven weekday names...])`. */
  predicate WeekdayValue(v: Option<Value>)
  {
    IsString(v) && WeekdayNamed(StringOf(v)).Some?
  }

  /** The seven field checks, in the order the shape declares them. */
  function CreateChecks(o: map<string, Value>): seq<(string, bool)>
  {
    [ ("doctor_id", PositiveInt(FieldOf(o, "doctor_id"))),
      ("day_of_week", WeekdayValue(FieldOf(o, "day_of_week"))),
      ("start_time", TimeString(FieldOf(o, "start_time"))),
      ("end_time", TimeString(FieldOf(o, "end_time"))),
      ("rest_start_time", TimeString(FieldOf(o, "rest_start_time"))),
      ("rest_end_time", TimeString(FieldOf(o, "rest_end_time"))),
      ("period_time", PeriodValue(FieldOf(o, "period_time"))) ]
  }

  /** Every field of the create schema passes its own check. */
  predicate CreateFieldsPass(o: map<string, Value>)
  {
    PositiveInt(FieldOf(o, "doctor_id")) && WeekdayValue(FieldOf(o, "day_of_week"))
    && TimeString(FieldOf(o, "start_time")) && TimeString(FieldOf(o, "end_time"))
    && TimeString(FieldOf(o, "rest_start_time")) && TimeString(FieldOf(o, "rest_end_time"))
    && PeriodValue(FieldOf(o, "period_time"))
  }

  /** The seven checks all pass exactly when the fields do. */
  lemma CreateChecksIff(o: map<string, Value>)
    ensures FieldIssues(CreateChecks(o)) == [] <==> CreateFieldsPass(o)
  {
    var checks := CreateChecks(o);
    if FieldIssues(checks) == [] {
      assert checks[0].1 && checks[1].1 && checks[2].1 && checks[3].1;
      assert checks[4].1 && checks[5].1 && checks[6].1;
    } else {
      var issues := FieldIssues(checks);
      var j :| 0 <= j < |checks| && !checks[j].1 && issues[0] == Issue([checks[j].0]);
    }
  }

  /** `AvailabilityCreateSchema.safeParse(o)`. */
  function ParseCreate(o: map<string, Value>): (r: Result<AvailabilityCreate, seq<Issue>>)
    ensures r.Ok? <==> CreateFieldsPass(o) && !OrderRefused(o)
    ensures r.Ok? ==>
      r.value.doctorId == IntOf(FieldOf(o, "doctor_id")) && r.value.doctorId > 0
      && r.value.day.Name() == StringOf(FieldOf(o, "day_of_week"))
      && r.value.startTime == StringOf(FieldOf(o, "start_time"))
      && r.value.endTime == StringOf(FieldOf(o, "end_time"))
      && r.value.restStartTime == StringOf(FieldOf(o, "rest_start_time"))
      && r.value.restEndTime == StringOf(FieldOf(o, "rest_end_time"))
      && r.value.periodTime == IntOf(FieldOf(o, "period_time"))
      && r.value.periodTime > 0 && r.value.periodTime % 5 == 0
    ensures CreateFieldsPass(o) && r.Err? ==> r.error == [Issue(["end_time"])]
    ensures !CreateFieldsPass(o) ==> r.Err? && r.error != [] && forall i :: 0 <= i < |r.error| ==> |r.error[i].path| == 1
  {
    var issues := FieldIssues(CreateChecks(o));
    CreateChecksIff(o);
    if issues != [] then
      FieldIssuesName(CreateChecks(o));
      Err(issues)
    else
      var start := StringOf(FieldOf(o, "start_time"));
      var end := StringOf(FieldOf(o, "end_time"));
      if OrderRefused(o) then Err([Issue(["end_time"])])
      else
        Ok(AvailabilityCreate(
          IntOf(FieldOf(o, "doctor_id")), WeekdayNamed(StringOf(FieldOf(o, "day_of_week"))).value,
          start, end, StringOf(FieldOf(o, "rest_start_time")), StringOf(FieldOf(o, "rest_end_time")),
          IntOf(FieldOf(o, "period_time"))))
  }

  /** A time the regular expression accepts reads, with the availability
      service's parser, as a time of day. */
  lemma TimeTextParses(t: string)
    requires TimeText(t)
    ensures AvailabilityService.ParseClock(t).Num?
    ensures 0 <= AvailabilityService.ParseClock(t).v < 24 * 3600
  {
    TimeTextIff(t);
    var p := Split(t, ':');
    assert Number(p[0]) == Num(DigitsValue(p[0]));
    assert Number(p[1]) == Num(DigitsValue(p[1]));
    if |p| == 3 {
      assert Number(p[2]) == Num(DigitsValue(p[2]));
    }
  }

  /** A rule accepted by the create schema, once stored, has a positive
      period and four times of day the slot walk reads as numbers: the
      walk of `generateTimeSlots` ends and is not cut short by `NaN`. */
  lemma AcceptedRuleIsWalkable(o: map<string, Value>, id: int)
    requires ParseCreate(o).Ok?
    ensures var a := AvailabilityRepository.Stored(id, ParseCreate(o).value);
      a.periodTime > 0
      && AvailabilityService.ParseClock(a.startTime).Num? && AvailabilityService.ParseClock(a.endTime).Num?
      && AvailabilityService.ParseClock(a.restStartTime).Num? && AvailabilityService.ParseClock(a.restEndTime).Num?
  {
    var d := ParseCreate(o).value;
    TimeTextParses(d.startTime);
    TimeTextParses(d.endTime);
    TimeTextParses(d.restStartTime);
    TimeTextParses(d.restEndTime);
  }

  /** A create body for doctor 1 with the given day, times and period. */
  function RuleBody(day: string, start: string, end: string, restStart: string, restEnd: string, period: real)
    : map<string, Value>
  {
    map["doctor_id" := JNumber(1.0), "day_of_week" := JString(day),
        "start_time" := JString(start), "end_time" := JString(end),
        "rest_start_time" := JString(restStart), "rest_end_time" := JString(restEnd),
        "period_time" := JNumber(period)]
  }

  lemma RuleBodyFields(day: string, start: string, end: string, restStart: string, restEnd: string, period: real)
    ensures var o := RuleBody(day, start, end, restStart, restEnd, period);
      FieldOf(o, "doctor_id") == Some(JNumber(1.0)) && FieldOf(o, "day_of_week") == Some(JString(day))
      && FieldOf(o, "start_time") == Some(JString(start)) && FieldOf(o, "end_time") == Some(JString(end))
      && FieldOf(o, "rest_start_time") == Some(JString(restStart))
      && FieldOf(o, "rest_end_time") == Some(JString(restEnd))
      && FieldOf(o, "period_time") == Some(JNumber(period))
  {
  }

  /** A body with a weekday name, four pattern-conforming times and a
      period of 15 or 30 passes every field check. */
  lemma RuleBodyPasses(day: string, start: string, end: string, restStart: string, restEnd: string, period: real)
    requires WeekdayNamed(day).Some?
    requires TimeText(start) && TimeText(end) && TimeText(restStart) && TimeText(restEnd)
    requires period == 15.0 || period == 30.0
    ensures CreateFieldsPass(RuleBody(day, start, end, restStart, restEnd, period))
  {
    RuleBodyFields(day, start, end, restStart, restEnd, period);
  }

  /** Times are compared as text: "9:00" is not before "10:00", so a
      9-to-10 rule written with a one-digit hour is refused at `end_time`. */
  lemma OneDigitHourRefused()
    ensures ParseCreate(RuleBody("monday", "9:00", "10:00", "9:30", "9:40", 30.0)) == Err([Issue(["end_time"])])
  {
    assert TimeText("9:00") by { assert "9:00"[..1] == "9" && "9:00"[1..] == ":00" && ":00"[1..3] == "00"; }
    assert TimeText("10:00") by { assert "10:00"[..2] == "10" && "10:00"[2..] == ":00" && ":00"[1..3] == "00"; }
    assert TimeText("9:30") by { assert "9:30"[..1] == "9" && "9:30"[1..] == ":30" && ":30"[1..3] == "30"; }
    assert TimeText("9:40") by { assert "9:40"[..1] == "9" && "9:40"[1..] == ":40" && ":40"[1..3] == "40"; }
    RuleBodyPasses("monday", "9:00", "10:00", "9:30", "9:40", 30.0);
    RuleBodyFields("monday", "9:00", "10:00", "9:30", "9:40", 30.0);
    assert !StrLt("9:00", "10:00");
  }

  /** The rest times are only format-checked: a rest window that is
      inverted and lies outside the working hours is accepted. */
  lemma RestWindowUnchecked()
    ensures ParseCreate(RuleBody("friday", "09:00", "12:00", "20:00", "18:00", 15.0)).Ok?
  {
    assert TimeText("09:00") by { assert "09:00"[..2] == "09" && "09:00"[2..] == ":00" && ":00"[1..3] == "00"; }
    assert TimeText("12:00") by { assert "12:00"[..2] == "12" && "12:00"[2..] == ":00" && ":00"[1..3] == "00"; }
    assert TimeText("20:00") by { assert "20:00"[..2] == "20" && "20:00"[2..] == ":00" && ":00"[1..3] == "00"; }
    assert TimeText("18:00") by { assert "18:00"[..2] == "18" && "18:00"[2..] == ":00" && ":00"[1..3] == "00"; }
    assert WeekdayNamed("friday") == Some(Friday);
    RuleBodyPasses("friday", "09:00", "12:00", "20:00", "18:00", 15.0);
    RuleBodyFields("friday", "09:00", "12:00", "20:00", "18:00", 15.0);
    assert StrLt("09:00", "12:00");
  }

  // ---- AvailabilityUpdateSchema = AvailabilityCreateSchema.partial() ----

  predicate UpdateFieldsPass(o: map<string, Value>)
  {
    Optional(FieldOf(o, "doctor_id"), PositiveInt(FieldOf(o, "doctor_id")))
    && Optional(FieldOf(o, "day_of_week"), WeekdayValue(FieldOf(o, "day_of_week")))
    && Optional(FieldOf(o, "start_time"), TimeString(FieldOf(o, "start_time")))
    && Optional(FieldOf(o, "end_time"), TimeString(FieldOf(o, "end_time")))
    && Optional(FieldOf(o, "rest_start_time"), TimeString(FieldOf(o, "rest_start_time")))
    && Optional(FieldOf(o, "rest_end_time"), TimeString(FieldOf(o, "rest_end_time")))
    && Optional(FieldOf(o, "period_time"), PeriodValue(FieldOf(o, "period_time")))
  }

  /** The keys of the partial schema, in declared order. */
  const UpdateKeys: seq<string> :=
    ["doctor_id", "day_of_week", "start_time", "end_time", "rest_start_time", "rest_end_time", "period_time"]

  /** The key an entry sets. */
  function FieldKey(f: AvailabilityField): string
  {
    match f
    case SetDoctor(_) => "doctor_id"
    case SetDay(_) => "day_of_week"
    case SetStart(_) => "start_time"
    case SetEnd(_) => "end_time"
    case SetRestStart(_) => "rest_start_time"
    case SetRestEnd(_) => "rest_end_time"
    case SetPeriod(_) => "period_time"
  }

  /** The keys a list of entries sets, in order. */
  function Keys(fs: seq<AvailabilityField>): (ks: seq<string>)
    ensures |ks| == |fs| && forall i :: 0 <= i < |fs| ==> ks[i] == FieldKey(fs[i])
  {
    if fs == [] then [] else [FieldKey(fs[0])] + Keys(fs[1..])
  }

  /** `[key]` when the patch gives `key`, otherwise nothing. */
  function Given(key: string, o: map<string, Value>): seq<string>
  {
    if key in o then [key] else []
  }

  /** The entry carries the value the patch gives for its key. */
  predicate Carries(o: map<string, Value>, f: AvailabilityField)
  {
    var v := FieldOf(o, FieldKey(f));
    match f
    case SetDoctor(d) => v == Some(JNumber(d as real))
    case SetDay(day) => v.Some? && v.value.JString? && WeekdayNamed(v.value.s) == Some(day)
    case SetStart(t) => v == Some(JString(t))
    case SetEnd(t) => v == Some(JString(t))
    case SetRestStart(t) => v == Some(JString(t))
    case SetRestEnd(t) => v == Some(JString(t))
    case SetPeriod(p) => v == Some(JNumber(p as real))
  }

  /** The entry the patch supplies for `key`: none when the key is absent. */
  function Entry(o: map<string, Value>, key: string): (fs: seq<AvailabilityField>)
    requires UpdateFieldsPass(o)
    ensures |fs| <= 1 && (key !in o ==> fs == [])
    ensures key in UpdateKeys ==> (key in o <==> |fs| == 1)
    ensures key in o && key == "doctor_id" ==> fs == [SetDoctor(IntOf(FieldOf(o, key)))]
    ensures key in o && key == "day_of_week" ==> fs == [SetDay(WeekdayNamed(StringOf(FieldOf(o, key))).value)]
    ensures key in o && key == "start_time" ==> fs == [SetStart(StringOf(FieldOf(o, key)))]
    ensures key in o && key == "end_time" ==> fs == [SetEnd(StringOf(FieldOf(o, key)))]
    ensures key in o && key == "rest_start_time" ==> fs == [SetRestStart(StringOf(FieldOf(o, key)))]
    ensures key in o && key == "rest_end_time" ==> fs == [SetRestEnd(StringOf(FieldOf(o, key)))]
    ensures key in o && key == "period_time" ==> fs == [SetPeriod(IntOf(FieldOf(o, key)))]
    ensures forall i :: 0 <= i < |fs| ==> FieldValid(fs[i]) && FieldKey(fs[i]) == key && Carries(o, fs[i])
  {
    if key !in o then []
    else if key == "doctor_id" then [SetDoctor(IntOf(FieldOf(o, key)))]
    else if key == "day_of_week" then [SetDay(WeekdayNamed(StringOf(FieldOf(o, key))).value)]
    else if key == "start_time" then [SetStart(StringOf(FieldOf(o, key)))]
    else if key == "end_time" then [SetEnd(StringOf(FieldOf(o, key)))]
    else if key == "rest_start_time" then [SetRestStart(StringOf(FieldOf(o, key)))]
    else if key == "rest_end_time" then [SetRestEnd(StringOf(FieldOf(o, key)))]
    else if key == "period_time" then [SetPeriod(IntOf(FieldOf(o, key)))]
    else []
  }

  /** The supplied fields as `key = value` entries, in declared order. */
  function Supplied(o: map<string, Value>): (fs: seq<AvailabilityField>)
    requires UpdateFieldsPass(o)
    ensures |fs| <= 7
  {
    Entry(o, "doctor_id") + Entry(o, "day_of_week") + Entry(o, "start_time") + Entry(o, "end_time")
    + Entry(o, "rest_start_time") + Entry(o, "rest_end_time") + Entry(o, "period_time")
  }

  lemma KeysAppend(a: seq<AvailabilityField>, b: seq<AvailabilityField>)
    ensures Keys(a + b) == Keys(a) + Keys(b)
  {
    var l, r := Keys(a + b), Keys(a) + Keys(b);
    assert |l| == |r|;
    forall i | 0 <= i < |l|
      ensures l[i] == r[i]
    {
      if i < |a| {
        assert (a + b)[i] == a[i];
      } else {
        assert (a + b)[i] == b[i - |a|];
      }
    }
  }

  /** The key list of the entry for `key`: `key` itself when the patch gives it. */
  lemma EntryKeys(o: map<string, Value>, key: string)
    requires UpdateFieldsPass(o) && key in UpdateKeys
    ensures Keys(Entry(o, key)) == Given(key, o)
  {
  }

  /** A passing patch supplies one entry for each declared key it gives
      and none for the others, in declared order. */
  lemma SuppliedKeys(o: map<string, Value>)
    requires UpdateFieldsPass(o)
    ensures Keys(Supplied(o)) ==
      Given("doctor_id", o) + Given("day_of_week", o) + Given("start_time", o) + Given("end_time", o)
      + Given("rest_start_time", o) + Given("rest_end_time", o) + Given("period_time", o)
  {
    var e1, e2, e3, e4 := Entry(o, "doctor_id"), Entry(o, "day_of_week"), Entry(o, "start_time"), Entry(o, "end_time");
    var e5, e6, e7 := Entry(o, "rest_start_time"), Entry(o, "rest_end_time"), Entry(o, "period_time");
    KeysAppend(e1, e2);
    KeysAppend(e1 + e2, e3);
    KeysAppend(e1 + e2 + e3, e4);
    KeysAppend(e1 + e2 + e3 + e4, e5);
    KeysAppend(e1 + e2 + e3 + e4 + e5, e6);
    KeysAppend(e1 + e2 + e3 + e4 + e5 + e6, e7);
    EntryKeys(o, "doctor_id");
    EntryKeys(o, "day_of_week");
    EntryKeys(o, "start_time");
    EntryKeys(o, "end_time");
    EntryKeys(o, "rest_start_time");
    EntryKeys(o, "rest_end_time");
    EntryKeys(o, "period_time");
  }

  /** Each entry of a passing patch carries the value given for its key. */
  lemma SuppliedCarries(o: map<string, Value>)
    requires UpdateFieldsPass(o)
    ensures forall i :: 0 <= i < |Supplied(o)| ==> Carries(o, Supplied(o)[i])
  {
    var e1, e2, e3, e4 := Entry(o, "doctor_id"), Entry(o, "day_of_week"), Entry(o, "start_time"), Entry(o, "end_time");
    var e5, e6, e7 := Entry(o, "rest_start_time"), Entry(o, "rest_end_time"), Entry(o, "period_time");
    AllCarryAppend(o, e1, e2);
    AllCarryAppend(o, e1 + e2, e3);
    AllCarryAppend(o, e1 + e2 + e3, e4);
    AllCarryAppend(o, e1 + e2 + e3 + e4, e5);
    AllCarryAppend(o, e1 + e2 + e3 + e4 + e5, e6);
    AllCarryAppend(o, e1 + e2 + e3 + e4 + e5 + e6, e7);
    assert AllCarry(o, Supplied(o));
  }

  predicate AllCarry(o: map<string, Value>, fs: seq<AvailabilityField>)
  {
    forall i :: 0 <= i < |fs| ==> Carries(o, fs[i])
  }

  lemma AllCarryAppend(o: map<string, Value>, a: seq<AvailabilityField>, b: seq<AvailabilityField>)
    requires AllCarry(o, a) && AllCarry(o, b)
    ensures AllCarry(o, a + b)
  {
  }

  /** The seven checks of the partial schema, in declared order. */
  function UpdateChecks(o: map<string, Value>): (checks: seq<(string, bool)>)
    ensures (forall i :: 0 <= i < |checks| ==> checks[i].1) <==> UpdateFieldsPass(o)
  {
    var checks := [
      ("doctor_id", Optional(FieldOf(o, "doctor_id"), PositiveInt(FieldOf(o, "doctor_id")))),
      ("day_of_week", Optional(FieldOf(o, "day_of_week"), WeekdayValue(FieldOf(o, "day_of_week")))),
      ("start_time", Optional(FieldOf(o, "start_time"), TimeString(FieldOf(o, "start_time")))),
      ("end_time", Optional(FieldOf(o, "end_time"), TimeString(FieldOf(o, "end_time")))),
      ("rest_start_time", Optional(FieldOf(o, "rest_start_time"), TimeString(FieldOf(o, "rest_start_time")))),
      ("rest_end_time", Optional(FieldOf(o, "rest_end_time"), TimeString(FieldOf(o, "rest_end_time")))),
      ("period_time", Optional(FieldOf(o, "period_time"), PeriodValue(FieldOf(o, "period_time"))))];
    assert UpdateFieldsPass(o) ==> forall i :: 0 <= i < |checks| ==> checks[i].1;
    assert (forall i :: 0 <= i < |checks| ==> checks[i].1) ==>
      checks[0].1 && checks[1].1 && checks[2].1 && checks[3].1 && checks[4].1 && checks[5].1 && checks[6].1;
    checks
  }

  /** Every entry a passing patch supplies satisfies its field's check. */
  lemma SuppliedValid(o: map<string, Value>)
    requires UpdateFieldsPass(o)
    ensures forall i :: 0 <= i < |Supplied(o)| ==> FieldValid(Supplied(o)[i])
  {
    var e1, e2, e3, e4 := Entry(o, "doctor_id"), Entry(o, "day_of_week"), Entry(o, "start_time"), Entry(o, "end_time");
    var e5, e6, e7 := Entry(o, "rest_start_time"), Entry(o, "rest_end_time"), Entry(o, "period_time");
    AllValidAppend(e1, e2);
    AllValidAppend(e1 + e2, e3);
    AllValidAppend(e1 + e2 + e3, e4);
    AllValidAppend(e1 + e2 + e3 + e4, e5);
    AllValidAppend(e1 + e2 + e3 + e4 + e5, e6);
    AllValidAppend(e1 + e2 + e3 + e4 + e5 + e6, e7);
    assert AllValid(Supplied(o));
  }

  predicate AllValid(fs: seq<AvailabilityField>)
  {
    forall i :: 0 <= i < |fs| ==> FieldValid(fs[i])
  }

  lemma AllValidAppend(a: seq<AvailabilityField>, b: seq<AvailabilityField>)
    requires AllValid(a) && AllValid(b)
    ensures AllValid(a + b)
  {
  }

  /** `AvailabilityUpdateSchema.safeParse(o)`. */
  function ParseUpdate(o: map<string, Value>): (r: Result<seq<AvailabilityField>, seq<Issue>>)
    ensures r.Ok? <==> UpdateFieldsPass(o)
    ensures r.Ok? ==> forall i :: 0 <= i < |r.value| ==> FieldValid(r.value[i])
    ensures r.Ok? ==> r.value == Supplied(o)
  {
    var issues := FieldIssues(UpdateChecks(o));
    if issues != [] then Err(issues)
    else
      SuppliedValid(o);
      Ok(Supplied(o))
  }

  /** What the update schema guarantees of one `key = value` entry. */
  predicate FieldValid(f: AvailabilityField)
  {
    match f
    case SetDoctor(d) => d > 0
    case SetDay(_) => true
    case SetStart(t) => TimeText(t)
    case SetEnd(t) => TimeText(t)
    case SetRestStart(t) => TimeText(t)
    case SetRestEnd(t) => TimeText(t)
    case SetPeriod(p) => p > 0 && p % 5 == 0
  }

  /** An empty patch passes and supplies nothing. */
  lemma EmptyPatch()
    ensures ParseUpdate(map[]) == Ok([])
  {
  }

  /** A patch of the two times alone passes whenever each has the time
      format, whatever their order, and sets start then end. */
  lemma TimesOnlyPatch(st: string, en: string)
    requires TimeText(st) && TimeText(en)
    ensures ParseUpdate(map["start_time" := JString(st), "end_time" := JString(en)]) == Ok([SetStart(st), SetEnd(en)])
  {
    var o := map["start_time" := JString(st), "end_time" := JString(en)];
    assert o.Keys == {"start_time", "end_time"};
    assert UpdateFieldsPass(o);
    assert Supplied(o) == [SetStart(st), SetEnd(en)];
  }

  /** `.partial()` leaves the create schema's `superRefine` behind: a patch
      whose end comes before its start, which the refinement would refuse,
      passes and is applied as given. */
  lemma InvertedTimesPass()
    ensures var o := map["start_time" := JString("10:00"), "end_time" := JString("09:00")];
      OrderRefused(o) && ParseUpdate(o) == Ok([SetStart("10:00"), SetEnd("09:00")])
  {
    InvertedPair();
    TimesOnlyPatch("10:00", "09:00");
  }

  /** The period is a positive multiple of 5 and the four times have the
      schema's format. */
  predicate RuleShape(a: Availability)
  {
    a.periodTime > 0 && a.periodTime % 5 == 0
    && TimeText(a.startTime) && TimeText(a.endTime) && TimeText(a.restStartTime) && TimeText(a.restEndTime)
  }

  lemma FieldKeepsShape(a: Availability, f: AvailabilityField)
    requires RuleShape(a) && FieldValid(f)
    ensures RuleShape(AvailabilityRepository.ApplyField(a, f))
  {
  }

  /** A row that can be walked stays walkable under a validated patch: the
      period stays a positive multiple of 5 and the times keep the format. */
  lemma {:induction false} ValidatedPatchKeepsRule(a: Availability, fs: seq<AvailabilityField>)
    requires a.periodTime > 0 && a.periodTime % 5 == 0
    requires TimeText(a.startTime) && TimeText(a.endTime) && TimeText(a.restStartTime) && TimeText(a.restEndTime)
    requires forall i :: 0 <= i < |fs| ==> FieldValid(fs[i])
    ensures var b := AvailabilityRepository.ApplyFields(a, fs);
      b.periodTime > 0 && b.periodTime % 5 == 0
      && TimeText(b.startTime) && TimeText(b.endTime) && TimeText(b.restStartTime) && TimeText(b.restEndTime)
  {
    if fs != [] {
      var init := fs[..|fs| - 1];
      ValidatedPatchKeepsRule(a, init);
      FieldKeepsShape(AvailabilityRepository.ApplyFields(a, init), fs[|fs| - 1]);
    }
  }

  // ---- AvailabilityBulkSchema = z.array(AvailabilityCreateSchema) ----

  /** An array element the bulk schema accepts: an object passing the
      create schema. */
  predicate ItemPasses(item: Value)
  {
    item.JObject? && ParseCreate(item.fields).Ok?
  }

  /** Element `k` of the array, its issues moved under the index. */
  function ParseItem(item: Value, k: nat): (r: Result<AvailabilityCreate, seq<Issue>>)
    ensures r.Ok? <==> ItemPasses(item)
    ensures r.Ok? ==> r.value == ParseCreate(item.fields).value
  {
    if !item.JObject? then Err([Issue([IntToString(k)])])
    else match ParseCreate(item.fields)
      case Ok(d) => Ok(d)
      case Err(es) => Err(seq(|es|, i requires 0 <= i < |es| => Issue([IntToString(k)] + es[i].path)))
  }

  /** `z.array` over the elements from index `k` on: `parse` is the element
      schema with its issues moved under the element's index, and the
      issues of every failing element are kept, in order. */
  function ParseItems<T>(items: seq<Value>, k: nat, parse: (Value, nat) -> Result<T, seq<Issue>>): (r: Result<seq<T>, seq<Issue>>)
    ensures r.Ok? <==> forall i :: 0 <= i < |items| ==> parse(items[i], k + i).Ok?
    ensures r.Ok? ==>
      |r.value| == |items| && forall i :: 0 <= i < |items| ==> parse(items[i], k + i) == Ok(r.value[i])
    decreases |items|
  {
    if items == [] then Ok([])
    else
      var head := parse(items[0], k);
      var tail := ParseItems(items[1..], k + 1, parse);
      assert forall i :: 1 <= i < |items| ==> items[i] == items[1..][i - 1];
      if head.Ok? && tail.Ok? then
        var out := [head.value] + tail.value;
        assert forall i :: 1 <= i < |items| ==> out[i] == tail.value[i - 1];
        Ok(out)
      else if head.Ok? then Err(tail.error)
      else if tail.Ok? then Err(head.error)
      else Err(head.error + tail.error)
  }

  /** `AvailabilityBulkSchema.safeParse(v)`: an array whose every element
      passes the create schema; anything but an array is refused whole. */
  function ParseBulk(v: Value): (r: Result<seq<AvailabilityCreate>, seq<Issue>>)
    ensures r.Ok? <==> v.JArray? && forall i :: 0 <= i < |v.items| ==>
      v.items[i].JObject? && ParseCreate(v.items[i].fields).Ok?
    ensures r.Ok? ==>
      |r.value| == |v.items| && forall i :: 0 <= i < |v.items| ==> r.value[i] == ParseCreate(v.items[i].fields).value
  {
    if !v.JArray? then Err([Issue([])]) else ParseItems(v.items, 0, ParseItem)
  }
}
