/** The schemas of `src/validations/appointment.ts`: appointment creation
    and its partial update, the status update, the listing filter (query
    parameters turned into numbers by `parseInt`) and slot blocking. */
module AppointmentValidation {
  import opened Base
  import opened Js
  import opened Models
  import opened Schema

  /** `statusEnum`. */
  predicate StatusValue(v: Option<Value>)
  {
    IsString(v) && StatusNamed(StringOf(v)).Some?
  }

  /** `consultationTypeEnum`. */
  predicate ConsultationTypeValue(v: Option<Value>)
  {
    IsString(v) && ConsultationTypeNamed(StringOf(v)).Some?
  }

  // ---- AppointmentCreateSchema ----

  predicate CreateFieldsPass(o: map<string, Value>)
  {
    PositiveInt(FieldOf(o, "availability_id")) && PositiveInt(FieldOf(o, "doctor_id"))
    && PositiveInt(FieldOf(o, "patient_id")) && DateString(FieldOf(o, "day"))
    && TimeString(FieldOf(o, "start_time")) && TimeString(FieldOf(o, "end_time"))
    && ConsultationTypeValue(FieldOf(o, "consultation_type"))
  }

  function CreateChecks(o: map<string, Value>): (checks: seq<(string, bool)>)
    ensures (forall i :: 0 <= i < |checks| ==> checks[i].1) <==> CreateFieldsPass(o)
  {
    var checks := [
      ("availability_id", PositiveInt(FieldOf(o, "availability_id"))),
      ("doctor_id", PositiveInt(FieldOf(o, "doctor_id"))),
      ("patient_id", PositiveInt(FieldOf(o, "patient_id"))),
      ("day", DateString(FieldOf(o, "day"))),
      ("start_time", TimeString(FieldOf(o, "start_time"))),
      ("end_time", TimeString(FieldOf(o, "end_time"))),
      ("consultation_type", ConsultationTypeValue(FieldOf(o, "consultation_type")))];
    assert CreateFieldsPass(o) ==> forall i :: 0 <= i < |checks| ==> checks[i].1;
    assert (forall i :: 0 <= i < |checks| ==> checks[i].1) ==>
      checks[0].1 && checks[1].1 && checks[2].1 && checks[3].1 && checks[4].1 && checks[5].1 && checks[6].1;
    checks
  }

  /** `AppointmentCreateSchema.safeParse(o)`. */
  function ParseCreate(o: map<string, Value>): (r: Result<AppointmentCreate, seq<Issue>>)
    ensures r.Ok? <==> CreateFieldsPass(o) && !OrderRefused(o)
    ensures r.Ok? ==>
      r.value.availabilityId > 0 && r.value.doctorId > 0 && r.value.patientId > 0
      && r.value.availabilityId == IntOf(FieldOf(o, "availability_id"))
      && r.value.doctorId == IntOf(FieldOf(o, "doctor_id"))
      && r.value.patientId == IntOf(FieldOf(o, "patient_id"))
      && r.value.day == StringOf(FieldOf(o, "day")) && DateText(r.value.day)
      && r.value.startTime == StringOf(FieldOf(o, "start_time")) && TimeText(r.value.startTime)
      && r.value.endTime == StringOf(FieldOf(o, "end_time")) && TimeText(r.value.endTime)
      && StrLt(r.value.startTime, r.value.endTime)
      && r.value.consultationType.Name() == StringOf(FieldOf(o, "consultation_type"))
    ensures CreateFieldsPass(o) && OrderRefused(o) ==> r == Err([Issue(["end_time"])])
  {
    var issues := FieldIssues(CreateChecks(o));
    if issues != [] then Err(issues)
    else if OrderRefused(o) then Err([Issue(["end_time"])])
    else
      Ok(AppointmentCreate(
        IntOf(FieldOf(o, "availability_id")), IntOf(FieldOf(o, "doctor_id")), IntOf(FieldOf(o, "patient_id")),
        StringOf(FieldOf(o, "day")), StringOf(FieldOf(o, "start_time")), StringOf(FieldOf(o, "end_time")),
        ConsultationTypeNamed(StringOf(FieldOf(o, "consultation_type"))).value))
  }

  // ---- AppointmentUpdateSchema = AppointmentCreateSchema.partial() ----

  predicate UpdateFieldsPass(o: map<string, Value>)
  {
    Optional(FieldOf(o, "availability_id"), PositiveInt(FieldOf(o, "availability_id")))
    && Optional(FieldOf(o, "doctor_id"), PositiveInt(FieldOf(o, "doctor_id")))
    && Optional(FieldOf(o, "patient_id"), PositiveInt(FieldOf(o, "patient_id")))
    && Optional(FieldOf(o, "day"), DateString(FieldOf(o, "day")))
    && Optional(FieldOf(o, "start_time"), TimeString(FieldOf(o, "start_time")))
    && Optional(FieldOf(o, "end_time"), TimeString(FieldOf(o, "end_time")))
    && Optional(FieldOf(o, "consultation_type"), ConsultationTypeValue(FieldOf(o, "consultation_type")))
  }

  function UpdateChecks(o: map<string, Value>): (checks: seq<(string, bool)>)
    ensures (forall i :: 0 <= i < |checks| ==> checks[i].1) <==> UpdateFieldsPass(o)
  {
    var checks := [
      ("availability_id", Optional(FieldOf(o, "availability_id"), PositiveInt(FieldOf(o, "availability_id")))),
      ("doctor_id", Optional(FieldOf(o, "doctor_id"), PositiveInt(FieldOf(o, "doctor_id")))),
      ("patient_id", Optional(FieldOf(o, "patient_id"), PositiveInt(FieldOf(o, "patient_id")))),
      ("day", Optional(FieldOf(o, "day"), DateString(FieldOf(o, "day")))),
      ("start_time", Optional(FieldOf(o, "start_time"), TimeString(FieldOf(o, "start_time")))),
      ("end_time", Optional(FieldOf(o, "end_time"), TimeString(FieldOf(o, "end_time")))),
      ("consultation_type", Optional(FieldOf(o, "consultation_type"), ConsultationTypeValue(FieldOf(o, "consultation_type"))))];
    assert (forall i :: 0 <= i < |checks| ==> checks[i].1) ==>
      checks[0].1 && checks[1].1 && checks[2].1 && checks[3].1 && checks[4].1 && checks[5].1 && checks[6].1;
    checks
  }

  /** What the update schema guarantees of one `key = value` entry. */
  predicate FieldValid(f: AppointmentField)
  {
    match f
    case SetAvailability(a) => a > 0
    case SetAppointmentDoctor(d) => d > 0
    case SetPatient(p) => p > 0
    case SetAppointmentDay(d) => DateText(d)
    case SetStartTime(t) => TimeText(t)
    case SetEndTime(t) => TimeText(t)
    case SetConsultationType(_) => true
  }

  /** The keys of the partial schema, in declared order. */
  const UpdateKeys: seq<string> :=
    ["availability_id", "doctor_id", "patient_id", "day", "start_time", "end_time", "consultation_type"]

  /** The key an entry sets. */
  function FieldKey(f: AppointmentField): string
  {
    match f
    case SetAvailability(_) => "availability_id"
    case SetAppointmentDoctor(_) => "doctor_id"
    case SetPatient(_) => "patient_id"
    case SetAppointmentDay(_) => "day"
    case SetStartTime(_) => "start_time"
    case SetEndTime(_) => "end_time"
    case SetConsultationType(_) => "consultation_type"
  }

  /** The keys a list of entries sets, in order. */
  function Keys(fs: seq<AppointmentField>): (ks: seq<string>)
    ensures |ks| == |fs| && forall i :: 0 <= i < |fs| ==> ks[i] == FieldKey(fs[i])
  {
    if fs == [] then [] else [FieldKey(fs[0])] + Keys(fs[1..])
  }

  /** `[key]` when the patch gives `key`, otherwise nothing. */
  function Given(key: string, o: map<string, Value>): seq<string>
  {
    if key in o then [key] else []
  }

  /** The entry carries the value the patch gives for its key. */
  predicate Carries(o: map<string, Value>, f: AppointmentField)
  {
    var v := FieldOf(o, FieldKey(f));
    match f
    case SetAvailability(a) => v == Some(JNumber(a as real))
    case SetAppointmentDoctor(d) => v == Some(JNumber(d as real))
    case SetPatient(p) => v == Some(JNumber(p as real))
    case SetAppointmentDay(d) => v == Some(JString(d))
    case SetStartTime(t) => v == Some(JString(t))
    case SetEndTime(t) => v == Some(JString(t))
    case SetConsultationType(c) => v.Some? && v.value.JString? && ConsultationTypeNamed(v.value.s) == Some(c)
  }

  /** The entry the patch supplies for `key`: none when the key is absent. */
  function Entry(o: map<string, Value>, key: string): (fs: seq<AppointmentField>)
    requires UpdateFieldsPass(o)
    ensures |fs| <= 1 && (key !in o ==> fs == [])
    ensures key in UpdateKeys ==> (key in o <==> |fs| == 1)
    ensures key in o && key == "availability_id" ==> fs == [SetAvailability(IntOf(FieldOf(o, key)))]
    ensures key in o && key == "doctor_id" ==> fs == [SetAppointmentDoctor(IntOf(FieldOf(o, key)))]
    ensures key in o && key == "patient_id" ==> fs == [SetPatient(IntOf(FieldOf(o, key)))]
    ensures key in o && key == "day" ==> fs == [SetAppointmentDay(StringOf(FieldOf(o, key)))]
    ensures key in o && key == "start_time" ==> fs == [SetStartTime(StringOf(FieldOf(o, key)))]
    ensures key in o && key == "end_time" ==> fs == [SetEndTime(StringOf(FieldOf(o, key)))]
    ensures key in o && key == "consultation_type" ==> fs == [SetConsultationType(ConsultationTypeNamed(StringOf(FieldOf(o, key))).value)]
    ensures forall i :: 0 <= i < |fs| ==> FieldValid(fs[i]) && FieldKey(fs[i]) == key && Carries(o, fs[i])
  {
    if key !in o then []
    else if key == "availability_id" then [SetAvailability(IntOf(FieldOf(o, key)))]
    else if key == "doctor_id" then [SetAppointmentDoctor(IntOf(FieldOf(o, key)))]
    else if key == "patient_id" then [SetPatient(IntOf(FieldOf(o, key)))]
    else if key == "day" then [SetAppointmentDay(StringOf(FieldOf(o, key)))]
    else if key == "start_time" then [SetStartTime(StringOf(FieldOf(o, key)))]
    else if key == "end_time" then [SetEndTime(StringOf(FieldOf(o, key)))]
    else if key == "consultation_type" then [SetConsultationType(ConsultationTypeNamed(StringOf(FieldOf(o, key))).value)]
    else []
  }

  /** The supplied fields as `key = value` entries, in declared order. */
  function Supplied(o: map<string, Value>): (fs: seq<AppointmentField>)
    requires UpdateFieldsPass(o)
  {
    Entry(o, "availability_id") + Entry(o, "doctor_id") + Entry(o, "patient_id") + Entry(o, "day")
    + Entry(o, "start_time") + Entry(o, "end_time") + Entry(o, "consultation_type")
  }

  predicate AllValid(fs: seq<AppointmentField>)
  {
    forall i :: 0 <= i < |fs| ==> FieldValid(fs[i])
  }

  lemma AllValidAppend(a: seq<AppointmentField>, b: seq<AppointmentField>)
    requires AllValid(a) && AllValid(b)
    ensures AllValid(a + b)
  {
  }

  /** Every entry a passing patch supplies satisfies its field's check. */
  lemma SuppliedValid(o: map<string, Value>)
    requires UpdateFieldsPass(o)
    ensures forall i :: 0 <= i < |Supplied(o)| ==> FieldValid(Supplied(o)[i])
  {
    var e1, e2, e3, e4 := Entry(o, "availability_id"), Entry(o, "doctor_id"), Entry(o, "patient_id"), Entry(o, "day");
    var e5, e6, e7 := Entry(o, "start_time"), Entry(o, "end_time"), Entry(o, "consultation_type");
    AllValidAppend(e1, e2);
    AllValidAppend(e1 + e2, e3);
    AllValidAppend(e1 + e2 + e3, e4);
    AllValidAppend(e1 + e2 + e3 + e4, e5);
    AllValidAppend(e1 + e2 + e3 + e4 + e5, e6);
    AllValidAppend(e1 + e2 + e3 + e4 + e5 + e6, e7);
    assert AllValid(Supplied(o));
  }

  lemma KeysAppend(a: seq<AppointmentField>, b: seq<AppointmentField>)
    ensures Keys(a + b) == Keys(a) + Keys(b)
  {
    var l, r := Keys(a + b), Keys(a) + Keys(b);
    assert |l| == |r|;
    forall i | 0 <= i < |l|
      ensures l[i] == r[i]
    {
      if i < |a| {
        assert (a + b)[i] == a[i];
      } else {
        assert (a + b)[i] == b[i - |a|];
      }
    }
  }

  /** The key list of the entry for `key`: `key` itself when the patch gives it. */
  lemma EntryKeys(o: map<string, Value>, key: string)
    requires UpdateFieldsPass(o) && key in UpdateKeys
    ensures Keys(Entry(o, key)) == Given(key, o)
  {
  }

  /** A passing patch supplies one entry for each declared key it gives
      and none for the others, in declared order. */
  lemma SuppliedKeys(o: map<string, Value>)
    requires UpdateFieldsPass(o)
    ensures Keys(Supplied(o)) ==
      Given("availability_id", o) + Given("doctor_id", o) + Given("patient_id", o) + Given("day", o)
      + Given("start_time", o) + Given("end_time", o) + Given("consultation_type", o)
  {
    var e1, e2, e3, e4 := Entry(o, "availability_id"), Entry(o, "doctor_id"), Entry(o, "patient_id"), Entry(o, "day");
    var e5, e6, e7 := Entry(o, "start_time"), Entry(o, "end_time"), Entry(o, "consultation_type");
    KeysAppend(e1, e2);
    KeysAppend(e1 + e2, e3);
    KeysAppend(e1 + e2 + e3, e4);
    KeysAppend(e1 + e2 + e3 + e4, e5);
    KeysAppend(e1 + e2 + e3 + e4 + e5, e6);
    KeysAppend(e1 + e2 + e3 + e4 + e5 + e6, e7);
    EntryKeys(o, "availability_id");
    EntryKeys(o, "doctor_id");
    EntryKeys(o, "patient_id");
    EntryKeys(o, "day");
    EntryKeys(o, "start_time");
    EntryKeys(o, "end_time");
    EntryKeys(o, "consultation_type");
  }

  predicate AllCarry(o: map<string, Value>, fs: seq<AppointmentField>)
  {
    forall i :: 0 <= i < |fs| ==> Carries(o, fs[i])
  }

  lemma AllCarryAppend(o: map<string, Value>, a: seq<AppointmentField>, b: seq<AppointmentField>)
    requires AllCarry(o, a) && AllCarry(o, b)
    ensures AllCarry(o, a + b)
  {
  }

  /** Each entry of a passing patch carries the value given for its key. */
  lemma SuppliedCarries(o: map<string, Value>)
    requires UpdateFieldsPass(o)
    ensures forall i :: 0 <= i < |Supplied(o)| ==> Carries(o, Supplied(o)[i])
  {
    var e1, e2, e3, e4 := Entry(o, "availability_id"), Entry(o, "doctor_id"), Entry(o, "patient_id"), Entry(o, "day");
    var e5, e6, e7 := Entry(o, "start_time"), Entry(o, "end_time"), Entry(o, "consultation_type");
    AllCarryAppend(o, e1, e2);
    AllCarryAppend(o, e1 + e2, e3);
    AllCarryAppend(o, e1 + e2 + e3, e4);
    AllCarryAppend(o, e1 + e2 + e3 + e4, e5);
    AllCarryAppend(o, e1 + e2 + e3 + e4 + e5, e6);
    AllCarryAppend(o, e1 + e2 + e3 + e4 + e5 + e6, e7);
    assert AllCarry(o, Supplied(o));
  }

  /** `AppointmentUpdateSchema.safeParse(o)`. */
  function ParseUpdate(o: map<string, Value>): (r: Result<seq<AppointmentField>, seq<Issue>>)
    ensures r.Ok? <==> UpdateFieldsPass(o)
    ensures r.Ok? ==> forall i :: 0 <= i < |r.value| ==> FieldValid(r.value[i])
    ensures r.Ok? ==> r.value == Supplied(o)
  {
    var issues := FieldIssues(UpdateChecks(o));
    if issues != [] then Err(issues)
    else
      SuppliedValid(o);
      Ok(Supplied(o))
  }

  /** An empty patch passes and supplies nothing. */
  lemma EmptyPatch()
    ensures ParseUpdate(map[]) == Ok([])
  {
  }

  /** A patch of the two times alone passes whenever each has the time
      format, whatever their order, and sets start then end. */
  lemma TimesOnlyPatch(st: string, en: string)
    requires TimeText(st) && TimeText(en)
    ensures ParseUpdate(map["start_time" := JString(st), "end_time" := JString(en)]) == Ok([SetStartTime(st), SetEndTime(en)])
  {
    var o := map["start_time" := JString(st), "end_time" := JString(en)];
    assert o.Keys == {"start_time", "end_time"};
    assert UpdateFieldsPass(o);
    assert Supplied(o) == [SetStartTime(st), SetEndTime(en)];
  }

  /** `.partial()` leaves the create schema's `superRefine` behind: a patch
      whose end comes before its start, which the refinement would refuse,
      passes and is applied as given. */
  lemma InvertedTimesPass()
    ensures var o := map["start_time" := JString("10:00"), "end_time" := JString("09:00")];
      OrderRefused(o) && ParseUpdate(o) == Ok([SetStartTime("10:00"), SetEndTime("09:00")])
  {
    InvertedPair();
    TimesOnlyPatch("10:00", "09:00");
  }

  // ---- AppointmentStatusUpdateSchema ----

  /** `AppointmentStatusUpdateSchema.safeParse(o)`: one of the four names. */
  function ParseStatusUpdate(o: map<string, Value>): (r: Result<Status, seq<Issue>>)
    ensures r.Ok? <==> StatusValue(FieldOf(o, "status"))
    ensures r.Ok? ==> r.value.Name() == StringOf(FieldOf(o, "status"))
    ensures r.Err? ==> r.error == [Issue(["status"])]
  {
    if StatusValue(FieldOf(o, "status")) then Ok(StatusNamed(StringOf(FieldOf(o, "status"))).value)
    else Err([Issue(["status"])])
  }

  /** Each status is accepted under its own name, and no other. */
  lemma StatusNames(st: Status)
    ensures ParseStatusUpdate(map["status" := JString(st.Name())]) == Ok(st)
  {
    EnumNames(st, Virtual);
  }

  // ---- AppointmentFilterSchema ----

  /** The listing filter after parsing. */
  datatype Filter = Filter(status: Option<Status>, page: int, limit: int)

  /** `z.string().optional().transform(val => val ? parseInt(val) : d)
      .pipe(z.number().int().min(1))`: absent or "" gives `d`; any other
      string goes through `parseInt`, whose result must be a safe integer
      of at least 1. */
  function Counter(v: Option<Value>, d: int): (n: Option<int>)
    requires 1 <= d <= MaxSafeInteger
    ensures n.Some? ==> 1 <= n.value <= MaxSafeInteger
    ensures v.None? ==> n == Some(d)
    ensures v.Some? && v.value.JString? && v.value.s != [] ==>
      (n.Some? <==> ParseInt(v.value.s).Num? && 1 <= ParseInt(v.value.s).v <= MaxSafeInteger)
  {
    if v.None? then Some(d)
    else if !v.value.JString? then None
    else if v.value.s == [] then Some(d)
    else
      var p := ParseInt(v.value.s);
      if p.Num? && 1 <= p.v <= MaxSafeInteger then Some(p.v) else None
  }

  /** `AppointmentFilterSchema.safeParse(query)`. */
  function ParseFilter(o: map<string, Value>): (r: Result<Filter, seq<Issue>>)
    ensures r.Ok? <==>
      Optional(FieldOf(o, "status"), StatusValue(FieldOf(o, "status")))
      && Counter(FieldOf(o, "page"), 1).Some? && Counter(FieldOf(o, "limit"), 10).Some?
    ensures r.Ok? ==> r.value.page >= 1 && r.value.limit >= 1
    ensures r.Ok? ==> (r.value.status.None? <==> "status" !in o)
  {
    var status := FieldOf(o, "status");
    var page := Counter(FieldOf(o, "page"), 1);
    var limit := Counter(FieldOf(o, "limit"), 10);
    var checks := [
      ("status", Optional(status, StatusValue(status))),
      ("page", page.Some?),
      ("limit", limit.Some?)];
    var issues := FieldIssues(checks);
    if issues != [] then Err(issues)
    else
      assert checks[0].1 && checks[1].1 && checks[2].1;
      Ok(Filter(if status.None? then None else StatusNamed(StringOf(status)), page.value, limit.value))
  }

  /** With no query parameters the first page of ten is listed. */
  lemma FilterDefaults()
    ensures ParseFilter(map[]) == Ok(Filter(None, 1, 10))
    ensures ParseFilter(map["page" := JString(""), "limit" := JString("")]) == Ok(Filter(None, 1, 10))
  {
  }

  /** `parseInt` reads a leading number and drops the rest, so "3abc" is
      page 3; "0" is refused. */
  lemma FilterReadsLeadingDigits()
    ensures ParseFilter(map["page" := JString("3abc")]) == Ok(Filter(None, 3, 10))
    ensures ParseFilter(map["page" := JString("0")]).Err?
  {
    ParseIntOfIntToString(3, "abc");
    assert IntToString(3) + "abc" == "3abc";
    ParseIntOfIntToString(0, "");
    assert IntToString(0) + "" == "0";
  }

  /** A page number beyond `Number.MAX_SAFE_INTEGER` fails `.int()`. */
  lemma UnsafePageRefused(n: int)
    requires n > MaxSafeInteger
    ensures ParseFilter(map["page" := JString(IntToString(n))]).Err?
  {
    ParseIntOfIntToString(n, "");
    assert IntToString(n) + "" == IntToString(n);
  }

  // ---- BlockSlotCreateSchema ----

  predicate BlockSlotFieldsPass(o: map<string, Value>)
  {
    PositiveInt(FieldOf(o, "availability_id")) && PositiveInt(FieldOf(o, "doctor_id"))
    && DateString(FieldOf(o, "day"))
    && TimeString(FieldOf(o, "start_time")) && TimeString(FieldOf(o, "end_time"))
    && OptionalString(FieldOf(o, "reason"))
  }

  function BlockSlotChecks(o: map<string, Value>): (checks: seq<(string, bool)>)
    ensures (forall i :: 0 <= i < |checks| ==> checks[i].1) <==> BlockSlotFieldsPass(o)
  {
    var checks := [
      ("availability_id", PositiveInt(FieldOf(o, "availability_id"))),
      ("doctor_id", PositiveInt(FieldOf(o, "doctor_id"))),
      ("day", DateString(FieldOf(o, "day"))),
      ("start_time", TimeString(FieldOf(o, "start_time"))),
      ("end_time", TimeString(FieldOf(o, "end_time"))),
      ("reason", OptionalString(FieldOf(o, "reason")))];
    assert (forall i :: 0 <= i < |checks| ==> checks[i].1) ==>
      checks[0].1 && checks[1].1 && checks[2].1 && checks[3].1 && checks[4].1 && checks[5].1;
    checks
  }

  /** `BlockSlotCreateSchema.safeParse(o)`: no patient and no consultation
      type, an optional reason, and the same start-before-end refinement. */
  function ParseBlockSlot(o: map<string, Value>): (r: Result<BlockSlotCreate, seq<Issue>>)
    ensures r.Ok? <==> BlockSlotFieldsPass(o) && !OrderRefused(o)
    ensures r.Ok? ==>
      r.value.availabilityId == IntOf(FieldOf(o, "availability_id")) && r.value.availabilityId > 0
      && r.value.doctorId == IntOf(FieldOf(o, "doctor_id")) && r.value.doctorId > 0
      && r.value.day == StringOf(FieldOf(o, "day")) && DateText(r.value.day)
      && r.value.startTime == StringOf(FieldOf(o, "start_time"))
      && r.value.endTime == StringOf(FieldOf(o, "end_time"))
      && StrLt(r.value.startTime, r.value.endTime)
      && (r.value.reason.Some? <==> "reason" in o)
    ensures BlockSlotFieldsPass(o) && OrderRefused(o) ==> r == Err([Issue(["end_time"])])
  {
    var issues := FieldIssues(BlockSlotChecks(o));
    if issues != [] then Err(issues)
    else if OrderRefused(o) then Err([Issue(["end_time"])])
    else
      var reason := FieldOf(o, "reason");
      Ok(BlockSlotCreate(
        IntOf(FieldOf(o, "availability_id")), IntOf(FieldOf(o, "doctor_id")), StringOf(FieldOf(o, "day")),
        StringOf(FieldOf(o, "start_time")), StringOf(FieldOf(o, "end_time")),
        if reason.None? then None else Some(StringOf(reason))))
  }

  /** Keys the shape does not declare are stripped: a patient or a
      consultation type sent with a block request changes nothing. */
  lemma BlockSlotIgnoresPatient(o: map<string, Value>, v: Value, w: Value)
    ensures ParseBlockSlot(o["patient_id" := v]["consultation_type" := w]) == ParseBlockSlot(o)
  {
    var o' := o["patient_id" := v]["consultation_type" := w];
    SameField(o, v, w, "availability_id");
    SameField(o, v, w, "doctor_id");
    SameField(o, v, w, "day");
    SameField(o, v, w, "start_time");
    SameField(o, v, w, "end_time");
    SameField(o, v, w, "reason");
    assert BlockSlotChecks(o') == BlockSlotChecks(o);
  }

  lemma SameField(o: map<string, Value>, v: Value, w: Value, k: string)
    requires k != "patient_id" && k != "consultation_type"
    ensures FieldOf(o["patient_id" := v]["consultation_type" := w], k) == FieldOf(o, k)
  {
  }

  /** Creation and blocking refuse the same time pairs, with the issue on
      `end_time`, when every field is otherwise valid. */
  lemma SameOrderRule(o: map<string, Value>)
    requires CreateFieldsPass(o) && BlockSlotFieldsPass(o)
    ensures ParseCreate(o).Err? <==> ParseBlockSlot(o).Err?
    ensures ParseCreate(o).Err? ==> ParseCreate(o).error == ParseBlockSlot(o).error == [Issue(["end_time"])]
  {
  }
}
