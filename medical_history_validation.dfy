/** The schemas of `src/validations/medical_history.ts`: the health summary,
    the consultation detail, and the completion payload whose refinement
    ties the summary's patient to the consultation's. */
module MedicalHistoryValidation {
  import opened Base
  import opened Js
  import opened Models
  import opened Schema

  /** The eight strings of `bloodTypeEnum`. */
  const BloodTypes: set<string> := {"A+", "A-", "B+", "B-", "AB+", "AB-", "O+", "O-"}

  /** `bloodTypeEnum`, which is `.nullable().optional()`. */
  predicate BloodTypeValue(v: Option<Value>)
  {
    v.None? || v.value.JNull? || (v.value.JString? && v.value.s in BloodTypes)
  }

  /** `z.number().positive().nullable().optional()`. */
  predicate VitalValue(v: Option<Value>)
  {
    v.None? || v.value.JNull? || (v.value.JNumber? && v.value.x > 0.0)
  }

  /** `z.number().int().positive().nullable().optional()`. */
  predicate PressureValue(v: Option<Value>)
  {
    v.None? || v.value.JNull? || PositiveInt(v)
  }

  /** The text of an optional string field: `None` when absent or null. */
  function OptionalText(v: Option<Value>): (t: Option<string>)
    ensures t.Some? <==> v.Some? && v.value.JString?
  {
    if v.Some? && v.value.JString? then Some(v.value.s) else None
  }

  /** A nullable optional number as a measure: `None` when absent or null. */
  function Measure(v: Option<Value>): (x: Option<real>)
    ensures x.Some? <==> v.Some? && v.value.JNumber?
  {
    if v.Some? && v.value.JNumber? then Some(v.value.x) else None
  }

  /** A nullable optional integer: `None` when absent or null. */
  function WholeMeasure(v: Option<Value>): (n: Option<int>)
    ensures n.Some? <==> v.Some? && v.value.JNumber?
  {
    if v.Some? && v.value.JNumber? then Some(IntOf(v)) else None
  }

  // ---- HealthSummaryCreateSchema ----

  function SummaryChecks(o: map<string, Value>): seq<(string, bool)>
  {
    [ ("patient_id", PositiveInt(FieldOf(o, "patient_id"))),
      ("summary_date", DateString(FieldOf(o, "summary_date"))),
      ("temperature", VitalValue(FieldOf(o, "temperature"))),
      ("height", VitalValue(FieldOf(o, "height"))),
      ("weight", VitalValue(FieldOf(o, "weight"))),
      ("systolic_pressure", PressureValue(FieldOf(o, "systolic_pressure"))),
      ("diastolic_pressure", PressureValue(FieldOf(o, "diastolic_pressure"))),
      ("blood_type", BloodTypeValue(FieldOf(o, "blood_type"))) ]
  }

  predicate SummaryFieldsPass(o: map<string, Value>)
  {
    PositiveInt(FieldOf(o, "patient_id")) && DateString(FieldOf(o, "summary_date"))
    && VitalValue(FieldOf(o, "temperature")) && VitalValue(FieldOf(o, "height"))
    && VitalValue(FieldOf(o, "weight"))
    && PressureValue(FieldOf(o, "systolic_pressure")) && PressureValue(FieldOf(o, "diastolic_pressure"))
    && BloodTypeValue(FieldOf(o, "blood_type"))
  }

  /** The eight checks all pass exactly when the fields do. */
  lemma SummaryChecksIff(o: map<string, Value>)
    ensures FieldIssues(SummaryChecks(o)) == [] <==> SummaryFieldsPass(o)
  {
    var checks := SummaryChecks(o);
    if FieldIssues(checks) == [] {
      assert checks[0].1 && checks[1].1 && checks[2].1 && checks[3].1;
      assert checks[4].1 && checks[5].1 && checks[6].1 && checks[7].1;
    } else {
      var issues := FieldIssues(checks);
      var j :| 0 <= j < |checks| && !checks[j].1 && issues[0] == Issue([checks[j].0]);
    }
  }

  /** `HealthSummaryCreateSchema.safeParse(o)`. */
  function ParseSummary(o: map<string, Value>): (r: Result<HealthSummaryCreate, seq<Issue>>)
    ensures r.Ok? <==> SummaryFieldsPass(o)
    ensures r.Ok? ==>
      r.value.patientId == IntOf(FieldOf(o, "patient_id")) && r.value.patientId > 0
      && r.value.summaryDate == StringOf(FieldOf(o, "summary_date")) && DateText(r.value.summaryDate)
    ensures r.Ok? ==>
      r.value.temperature == Measure(FieldOf(o, "temperature"))
      && r.value.height == Measure(FieldOf(o, "height"))
      && r.value.weight == Measure(FieldOf(o, "weight"))
      && r.value.systolicPressure == WholeMeasure(FieldOf(o, "systolic_pressure"))
      && r.value.diastolicPressure == WholeMeasure(FieldOf(o, "diastolic_pressure"))
      && r.value.bloodType == OptionalText(FieldOf(o, "blood_type"))
    ensures r.Ok? ==>
      (r.value.temperature.Some? ==> r.value.temperature.value > 0.0)
      && (r.value.height.Some? ==> r.value.height.value > 0.0)
      && (r.value.weight.Some? ==> r.value.weight.value > 0.0)
      && (r.value.systolicPressure.Some? ==> r.value.systolicPressure.value > 0)
      && (r.value.diastolicPressure.Some? ==> r.value.diastolicPressure.value > 0)
      && (r.value.bloodType.Some? ==> r.value.bloodType.value in BloodTypes)
  {
    var issues := FieldIssues(SummaryChecks(o));
    SummaryChecksIff(o);
    if issues != [] then Err(issues)
    else
      Ok(HealthSummaryCreate(IntOf(FieldOf(o, "patient_id")), StringOf(FieldOf(o, "summary_date")),
        Measure(FieldOf(o, "temperature")), Measure(FieldOf(o, "height")), Measure(FieldOf(o, "weight")),
        WholeMeasure(FieldOf(o, "systolic_pressure")), WholeMeasure(FieldOf(o, "diastolic_pressure")),
        OptionalText(FieldOf(o, "blood_type"))))
  }

  // ---- ConsultationDetailCreateSchema ----

  function DetailChecks(o: map<string, Value>): seq<(string, bool)>
  {
    [ ("doctor_id", PositiveInt(FieldOf(o, "doctor_id"))),
      ("patient_id", PositiveInt(FieldOf(o, "patient_id"))),
      ("appointment_id", PositiveInt(FieldOf(o, "appointment_id"))),
      ("reason_for_consultation", NonEmptyString(FieldOf(o, "reason_for_consultation"))),
      ("description", OptionalString(FieldOf(o, "description"))),
      ("diagnosis", NonEmptyString(FieldOf(o, "diagnosis"))),
      ("instructions", OptionalString(FieldOf(o, "instructions"))),
      ("notes", OptionalString(FieldOf(o, "notes"))) ]
  }

  predicate DetailFieldsPass(o: map<string, Value>)
  {
    PositiveInt(FieldOf(o, "doctor_id")) && PositiveInt(FieldOf(o, "patient_id"))
    && PositiveInt(FieldOf(o, "appointment_id"))
    && NonEmptyString(FieldOf(o, "reason_for_consultation")) && OptionalString(FieldOf(o, "description"))
    && NonEmptyString(FieldOf(o, "diagnosis"))
    && OptionalString(FieldOf(o, "instructions")) && OptionalString(FieldOf(o, "notes"))
  }

  /** The eight checks all pass exactly when the fields do. */
  lemma DetailChecksIff(o: map<string, Value>)
    ensures FieldIssues(DetailChecks(o)) == [] <==> DetailFieldsPass(o)
  {
    var checks := DetailChecks(o);
    if FieldIssues(checks) == [] {
      assert checks[0].1 && checks[1].1 && checks[2].1 && checks[3].1;
      assert checks[4].1 && checks[5].1 && checks[6].1 && checks[7].1;
    } else {
      var issues := FieldIssues(checks);
      var j :| 0 <= j < |checks| && !checks[j].1 && issues[0] == Issue([checks[j].0]);
    }
  }

  /** `ConsultationDetailCreateSchema.safeParse(o)`. */
  function ParseDetail(o: map<string, Value>): (r: Result<ConsultationDetailCreate, seq<Issue>>)
    ensures r.Ok? <==> DetailFieldsPass(o)
    ensures r.Ok? ==>
      r.value.doctorId == IntOf(FieldOf(o, "doctor_id")) && r.value.doctorId > 0
      && r.value.patientId == IntOf(FieldOf(o, "patient_id")) && r.value.patientId > 0
      && r.value.appointmentId == IntOf(FieldOf(o, "appointment_id")) && r.value.appointmentId > 0
      && r.value.reasonForConsultation == StringOf(FieldOf(o, "reason_for_consultation"))
      && r.value.diagnosis == StringOf(FieldOf(o, "diagnosis"))
      && |r.value.reasonForConsultation| >= 1 && |r.value.diagnosis| >= 1
    ensures r.Ok? ==>
      r.value.description == OptionalText(FieldOf(o, "description"))
      && r.value.instructions == OptionalText(FieldOf(o, "instructions"))
      && r.value.notes == OptionalText(FieldOf(o, "notes"))
      && (r.value.description.Some? <==> "description" in o)
      && (r.value.instructions.Some? <==> "instructions" in o)
      && (r.value.notes.Some? <==> "notes" in o)
  {
    var issues := FieldIssues(DetailChecks(o));
    DetailChecksIff(o);
    if issues != [] then Err(issues)
    else
      Ok(ConsultationDetailCreate(
        IntOf(FieldOf(o, "doctor_id")), IntOf(FieldOf(o, "patient_id")), IntOf(FieldOf(o, "appointment_id")),
        StringOf(FieldOf(o, "reason_for_consultation")), OptionalText(FieldOf(o, "description")),
        StringOf(FieldOf(o, "diagnosis")),
        OptionalText(FieldOf(o, "instructions")), OptionalText(FieldOf(o, "notes"))))
  }

  // ---- CompleteConsultationPayloadSchema ----

  /** `issues` moved under the key `key`. */
  function Under(key: string, issues: seq<Issue>): (r: seq<Issue>)
    ensures |r| == |issues|
    ensures forall i :: 0 <= i < |r| ==> r[i].path == [key] + issues[i].path
  {
    seq(|issues|, i requires 0 <= i < |issues| => Issue([key] + issues[i].path))
  }

  /** The `consultation` part: required, an object, passing its schema. */
  function ConsultationPart(v: Option<Value>): Result<ConsultationDetailCreate, seq<Issue>>
  {
    if v.None? || !v.value.JObject? then Err([Issue(["consultation"])])
    else match ParseDetail(v.value.fields)
      case Ok(d) => Ok(d)
      case Err(es) => Err(Under("consultation", es))
  }

  /** The `summary` part: absent, or an object passing its schema. */
  function SummaryPart(v: Option<Value>): Result<Option<HealthSummaryCreate>, seq<Issue>>
  {
    if v.None? then Ok(None)
    else if !v.value.JObject? then Err([Issue(["summary"])])
    else match ParseSummary(v.value.fields)
      case Ok(s) => Ok(Some(s))
      case Err(es) => Err(Under("summary", es))
  }

  /** `CompleteConsultationPayloadSchema.safeParse(o)`. */
  function ParsePayload(o: map<string, Value>): (r: Result<CompleteConsultationPayload, seq<Issue>>)
    ensures r.Ok? <==>
      ConsultationPart(FieldOf(o, "consultation")).Ok? && SummaryPart(FieldOf(o, "summary")).Ok?
      && (SummaryPart(FieldOf(o, "summary")).value.Some? ==>
            SummaryPart(FieldOf(o, "summary")).value.value.patientId
              == ConsultationPart(FieldOf(o, "consultation")).value.patientId)
    ensures r.Ok? ==> r.value.summary.None? || r.value.summary.value.patientId == r.value.consultation.patientId
    ensures r.Ok? ==> (r.value.summary.Some? <==> "summary" in o)
  {
    var c := ConsultationPart(FieldOf(o, "consultation"));
    var s := SummaryPart(FieldOf(o, "summary"));
    if c.Err? || s.Err? then
      Err((if c.Err? then c.error else []) + (if s.Err? then s.error else []))
    else if s.value.Some? && s.value.value.patientId != c.value.patientId then
      Err([Issue(["summary", "patient_id"])])
    else Ok(CompleteConsultationPayload(c.value, s.value))
  }

  /** A summary for another patient is refused, with the issue on
      `summary.patient_id`. */
  lemma MismatchedSummaryRefused(c: map<string, Value>, s: map<string, Value>)
    requires DetailFieldsPass(c) && SummaryFieldsPass(s)
    requires IntOf(FieldOf(c, "patient_id")) != IntOf(FieldOf(s, "patient_id"))
    ensures ParsePayload(map["consultation" := JObject(c), "summary" := JObject(s)])
      == Err([Issue(["summary", "patient_id"])])
  {
    var o := map["consultation" := JObject(c), "summary" := JObject(s)];
    assert FieldOf(o, "consultation") == Some(JObject(c));
    assert FieldOf(o, "summary") == Some(JObject(s));
  }

  /** Without a summary only the consultation is checked. */
  lemma SummaryOptional(c: map<string, Value>)
    requires DetailFieldsPass(c)
    ensures ParsePayload(map["consultation" := JObject(c)]) == Ok(CompleteConsultationPayload(ParseDetail(c).value, None))
  {
    var o := map["consultation" := JObject(c)];
    assert FieldOf(o, "consultation") == Some(JObject(c));
    assert FieldOf(o, "summary") == None;
  }

  /** Only the shape of `summary_date` is checked: the payload does not
      tie it to the appointment's day, and month 13 passes. */
  lemma SummaryDateShapeOnly(c: map<string, Value>)
    requires DetailFieldsPass(c)
    ensures var s := map["patient_id" := FieldOf(c, "patient_id").value, "summary_date" := JString("1999-13-40")];
      ParsePayload(map["consultation" := JObject(c), "summary" := JObject(s)]).Ok?
  {
    var s := map["patient_id" := FieldOf(c, "patient_id").value, "summary_date" := JString("1999-13-40")];
    assert SummaryFieldsPass(s);
    var o := map["consultation" := JObject(c), "summary" := JObject(s)];
    assert FieldOf(o, "consultation") == Some(JObject(c));
    assert FieldOf(o, "summary") == Some(JObject(s));
  }
}
