/** The account schemas of `src/validations/user.ts`, `doctor.ts` and
    `patient.ts`. The three files carry the same `passwordRegex` and the same
    `repeatPassword` refinement; here they are defined once. */
module AccountValidation {
  import opened Base
  import opened Js
  import opened Schema

  // ---- passwordRegex: ^(?=.*[A-Z])(?=.*\d)(?=.*[<specials>]).{8,}$ ----

  /** The characters `.` does not match without the `s` flag. */
  predicate IsLineTerminator(c: char)
  {
    c == '\n' || c == '\r' || c == '\U{2028}' || c == '\U{2029}'
  }

  predicate IsUpper(c: char) { 'A' <= c <= 'Z' }

  /** The members of the third lookahead's class. */
  const Specials: string := "!@#$%^&*()_-+=[]{};':\"\\|,.<>/?"

  predicate IsSpecial(c: char) { c in Specials }

  /** The length JavaScript reports: characters outside the basic
      multilingual plane take two UTF-16 code units. */
  function Utf16Length(s: string): (n: nat)
    ensures |s| <= n <= 2 * |s|
    ensures (forall i :: 0 <= i < |s| ==> s[i] as int <= 0xFFFF) ==> n == |s|
  {
    if s == [] then 0
    else Utf16Length(s[..|s| - 1]) + (if s[|s| - 1] as int > 0xFFFF then 2 else 1)
  }

  /** The lookahead `(?=.*[cls])` tried at the start of `s`. */
  predicate Finds(s: string, cls: char -> bool)
  {
    s != [] && (cls(s[0]) || (!IsLineTerminator(s[0]) && Finds(s[1..], cls)))
  }

  /** `.*$` tried at the start of `s`. */
  predicate DotsToEnd(s: string)
  {
    s == [] || (!IsLineTerminator(s[0]) && DotsToEnd(s[1..]))
  }

  /** `passwordRegex.test(s)`, step by step as the pattern reads. */
  predicate PasswordRegex(s: string)
  {
    Finds(s, IsUpper) && Finds(s, IsDigit) && Finds(s, IsSpecial)
    && DotsToEnd(s) && Utf16Length(s) >= 8
  }

  /** The rule the pattern means: at least eight code units on one line,
      with a capital letter, a digit and one of the specials somewhere. */
  predicate PasswordRule(s: string)
  {
    Utf16Length(s) >= 8
    && (forall i :: 0 <= i < |s| ==> !IsLineTerminator(s[i]))
    && (exists i :: 0 <= i < |s| && IsUpper(s[i]))
    && (exists i :: 0 <= i < |s| && IsDigit(s[i]))
    && (exists i :: 0 <= i < |s| && IsSpecial(s[i]))
  }

  lemma {:induction false} DotsToEndIff(s: string)
    ensures DotsToEnd(s) <==> forall i :: 0 <= i < |s| ==> !IsLineTerminator(s[i])
  {
    if s != [] {
      DotsToEndIff(s[1..]);
      assert forall i :: 1 <= i < |s| ==> s[i] == s[1..][i - 1];
    }
  }

  /** On a single line, a lookahead finds its class iff some character is
      in it. */
  lemma {:induction false} FindsIff(s: string, cls: char -> bool)
    requires forall i :: 0 <= i < |s| ==> !IsLineTerminator(s[i])
    ensures Finds(s, cls) <==> exists i :: 0 <= i < |s| && cls(s[i])
  {
    if s != [] {
      FindsIff(s[1..], cls);
      if exists i :: 0 <= i < |s| && cls(s[i]) {
        var i :| 0 <= i < |s| && cls(s[i]);
        if i > 0 {
          assert s[1..][i - 1] == s[i];
        }
      }
      if Finds(s[1..], cls) {
        var i :| 0 <= i < |s[1..]| && cls(s[1..][i]);
        assert cls(s[i + 1]);
      }
    }
  }

  /** The regular expression accepts exactly the passwords of the rule. */
  lemma PasswordRegexIff(s: string)
    ensures PasswordRegex(s) <==> PasswordRule(s)
  {
    DotsToEndIff(s);
    if DotsToEnd(s) {
      FindsIff(s, IsUpper);
      FindsIff(s, IsDigit);
      FindsIff(s, IsSpecial);
    }
  }

  /** `z.string().regex(passwordRegex)`. */
  predicate PasswordString(v: Option<Value>)
  {
    IsString(v) && PasswordRegex(StringOf(v))
  }

  /** `z.string().min(1).trim().min(1)`: the value a schema keeps is the
      trimmed one. */
  predicate RepeatString(v: Option<Value>)
  {
    NonEmptyString(v) && |Trim(StringOf(v))| >= 1
  }

  /** The refinement `data.password === data.repeatPassword`, on the
      untrimmed password and the trimmed repetition. */
  predicate Confirmed(o: map<string, Value>)
  {
    StringOf(FieldOf(o, "password")) == Trim(StringOf(FieldOf(o, "repeatPassword")))
  }

  /** A password that starts or ends with white space passes the pattern
      when it is otherwise good, yet no repetition can ever confirm it. */
  lemma PaddedPasswordNeverConfirmed(o: map<string, Value>)
    requires var p := StringOf(FieldOf(o, "password"));
      p != [] && (IsJsSpace(p[0]) || IsJsSpace(p[|p| - 1]))
    ensures !Confirmed(o)
  {
  }

  /** The typed-in repetition may carry surrounding blanks. */
  lemma RepeatMayBePadded(p: string, o: map<string, Value>)
    requires p != [] && !IsJsSpace(p[0]) && !IsJsSpace(p[|p| - 1])
    requires FieldOf(o, "password") == Some(JString(p))
    requires FieldOf(o, "repeatPassword") == Some(JString(" " + p + " "))
    ensures Confirmed(o)
  {
    var r := " " + p + " ";
    assert r[1..] == p + " ";
    assert (p + " ")[..|p + " "| - 1] == p;
    assert Trim(p + " ") == TrimEnd(p + " ") == TrimEnd(p) == p;
  }

  // ---- src/validations/user.ts ----

  /** What `UserCreateSchema` hands on; `repeatPassword` is left out since
      it equals `password` once accepted. */
  datatype NewUser = NewUser(firstName: string, lastName: string, phone: string, email: string, password: string)

  function UserChecks(o: map<string, Value>, isEmail: string -> bool): seq<(string, bool)>
  {
    [ ("firstName", NonEmptyString(FieldOf(o, "firstName"))),
      ("lastName", NonEmptyString(FieldOf(o, "lastName"))),
      ("phone", IsString(FieldOf(o, "phone"))),
      ("email", IsString(FieldOf(o, "email")) && isEmail(StringOf(FieldOf(o, "email")))),
      ("password", PasswordString(FieldOf(o, "password"))),
      ("repeatPassword", RepeatString(FieldOf(o, "repeatPassword"))) ]
  }

  /** Every field check of `UserCreateSchema`; `isEmail` is the test
      `z.email` applies. */
  predicate UserFieldsPass(o: map<string, Value>, isEmail: string -> bool)
  {
    NonEmptyString(FieldOf(o, "firstName")) && NonEmptyString(FieldOf(o, "lastName"))
    && IsString(FieldOf(o, "phone"))
    && IsString(FieldOf(o, "email")) && isEmail(StringOf(FieldOf(o, "email")))
    && PasswordString(FieldOf(o, "password")) && RepeatString(FieldOf(o, "repeatPassword"))
  }

  function UserOf(o: map<string, Value>): NewUser
  {
    NewUser(StringOf(FieldOf(o, "firstName")), StringOf(FieldOf(o, "lastName")),
            StringOf(FieldOf(o, "phone")), StringOf(FieldOf(o, "email")),
            StringOf(FieldOf(o, "password")))
  }

  /** The refinement, reported on `repeatPassword` once the fields pass. */
  function Refined<T>(fieldIssues: seq<Issue>, o: map<string, Value>, value: T): (r: Result<T, seq<Issue>>)
    ensures r.Ok? <==> fieldIssues == [] && Confirmed(o)
    ensures r.Ok? ==> r.value == value
    ensures r.Err? && fieldIssues == [] ==> r.error == [Issue(["repeatPassword"])]
  {
    if fieldIssues != [] then Err(fieldIssues)
    else if !Confirmed(o) then Err([Issue(["repeatPassword"])])
    else Ok(value)
  }

  /** `UserCreateSchema.safeParse(o)`. */
  function ParseUserCreate(o: map<string, Value>, isEmail: string -> bool): (r: Result<NewUser, seq<Issue>>)
    ensures r.Ok? <==> UserFieldsPass(o, isEmail) && Confirmed(o)
    ensures r.Ok? ==>
      r.value == UserOf(o) && |r.value.firstName| >= 1 && |r.value.lastName| >= 1
      && isEmail(r.value.email) && PasswordRule(r.value.password)
    ensures r.Err? && UserFieldsPass(o, isEmail) ==> r.error == [Issue(["repeatPassword"])]
  {
    var issues := FieldIssues(UserChecks(o, isEmail));
    UserChecksIff(o, isEmail);
    if issues != [] then Err(issues)
    else
      assert PasswordRule(StringOf(FieldOf(o, "password"))) by {
        PasswordRegexIff(StringOf(FieldOf(o, "password")));
      }
      Refined(issues, o, UserOf(o))
  }

  /** The six checks all pass exactly when the fields do. */
  lemma UserChecksIff(o: map<string, Value>, isEmail: string -> bool)
    ensures FieldIssues(UserChecks(o, isEmail)) == [] <==> UserFieldsPass(o, isEmail)
  {
    var checks := UserChecks(o, isEmail);
    if FieldIssues(checks) == [] {
      assert checks[0].1 && checks[1].1 && checks[2].1;
      assert checks[3].1 && checks[4].1 && checks[5].1;
    } else {
      var issues := FieldIssues(checks);
      var j :| 0 <= j < |checks| && !checks[j].1 && issues[0] == Issue([checks[j].0]);
    }
  }

  datatype UserUpdate = UserUpdate(firstName: string, lastName: string, email: string)

  predicate UserUpdateFieldsPass(o: map<string, Value>, isEmail: string -> bool)
  {
    NonEmptyString(FieldOf(o, "firstName")) && NonEmptyString(FieldOf(o, "lastName"))
    && IsString(FieldOf(o, "email")) && isEmail(StringOf(FieldOf(o, "email")))
  }

  /** `UserUpdateSchema.safeParse(o)`. */
  function ParseUserUpdate(o: map<string, Value>, isEmail: string -> bool): (r: Result<UserUpdate, seq<Issue>>)
    ensures r.Ok? <==> UserUpdateFieldsPass(o, isEmail)
    ensures r.Ok? ==>
      |r.value.firstName| >= 1 && |r.value.lastName| >= 1 && isEmail(r.value.email)
      && r.value.firstName == StringOf(FieldOf(o, "firstName"))
      && r.value.lastName == StringOf(FieldOf(o, "lastName"))
      && r.value.email == StringOf(FieldOf(o, "email"))
  {
    var checks := [ ("firstName", NonEmptyString(FieldOf(o, "firstName"))),
                    ("lastName", NonEmptyString(FieldOf(o, "lastName"))),
                    ("email", IsString(FieldOf(o, "email")) && isEmail(StringOf(FieldOf(o, "email")))) ];
    var issues := FieldIssues(checks);
    if issues != [] then
      assert !UserUpdateFieldsPass(o, isEmail) by {
        var j :| 0 <= j < |checks| && !checks[j].1 && issues[0] == Issue([checks[j].0]);
      }
      Err(issues)
    else
      assert checks[0].1 && checks[1].1 && checks[2].1;
      Ok(UserUpdate(StringOf(FieldOf(o, "firstName")), StringOf(FieldOf(o, "lastName")), StringOf(FieldOf(o, "email"))))
  }

  // ---- src/validations/doctor.ts ----

  datatype NewDoctor = NewDoctor(user: NewUser, licenseNumber: string, bio: string, specialityId: real)

  predicate DoctorFieldsPass(o: map<string, Value>, isEmail: string -> bool)
  {
    UserFieldsPass(o, isEmail)
    && IsString(FieldOf(o, "licenseNumber")) && IsString(FieldOf(o, "bio"))
    && IsNumber(FieldOf(o, "specialityId"))
  }

  /** The user checks followed by the doctor's own three. */
  function DoctorChecks(o: map<string, Value>, isEmail: string -> bool): seq<(string, bool)>
  {
    UserChecks(o, isEmail)
    + [ ("licenseNumber", IsString(FieldOf(o, "licenseNumber"))),
        ("bio", IsString(FieldOf(o, "bio"))),
        ("specialityId", IsNumber(FieldOf(o, "specialityId"))) ]
  }

  lemma DoctorChecksIff(o: map<string, Value>, isEmail: string -> bool)
    ensures FieldIssues(DoctorChecks(o, isEmail)) == [] <==> DoctorFieldsPass(o, isEmail)
  {
    var own := [ ("licenseNumber", IsString(FieldOf(o, "licenseNumber"))),
                 ("bio", IsString(FieldOf(o, "bio"))),
                 ("specialityId", IsNumber(FieldOf(o, "specialityId"))) ];
    assert DoctorChecks(o, isEmail) == UserChecks(o, isEmail) + own;
    ChecksPassAppend(UserChecks(o, isEmail), own);
    UserChecksIff(o, isEmail);
    if FieldIssues(own) == [] {
      assert own[0].1 && own[1].1 && own[2].1;
    } else {
      var issues := FieldIssues(own);
      var j :| 0 <= j < |own| && !own[j].1 && issues[0] == Issue([own[j].0]);
    }
  }

  /** `DoctorCreateSchema.safeParse(o)`. */
  function ParseDoctorCreate(o: map<string, Value>, isEmail: string -> bool): (r: Result<NewDoctor, seq<Issue>>)
    ensures r.Ok? <==> DoctorFieldsPass(o, isEmail) && Confirmed(o)
    ensures r.Ok? ==>
      ParseUserCreate(o, isEmail) == Ok(r.value.user)
      && r.value.licenseNumber == StringOf(FieldOf(o, "licenseNumber"))
      && FieldOf(o, "specialityId") == Some(JNumber(r.value.specialityId))
    ensures r.Err? && DoctorFieldsPass(o, isEmail) ==> r.error == [Issue(["repeatPassword"])]
  {
    var issues := FieldIssues(DoctorChecks(o, isEmail));
    DoctorChecksIff(o, isEmail);
    if issues != [] then Err(issues)
    else
      Refined(issues, o, NewDoctor(UserOf(o), StringOf(FieldOf(o, "licenseNumber")),
                                   StringOf(FieldOf(o, "bio")), FieldOf(o, "specialityId").value.x))
  }

  datatype DoctorUpdate = DoctorUpdate(id: real, firstName: string, lastName: string, phone: string, bio: string, specialityId: real)

  predicate DoctorUpdateFieldsPass(o: map<string, Value>)
  {
    IsNumber(FieldOf(o, "id"))
    && NonEmptyString(FieldOf(o, "firstName")) && NonEmptyString(FieldOf(o, "lastName"))
    && IsString(FieldOf(o, "phone")) && IsString(FieldOf(o, "bio"))
    && IsNumber(FieldOf(o, "specialityId"))
  }

  /** `DoctorUpdateSchema.safeParse(o)`: no e-mail and no password fields. */
  function ParseDoctorUpdate(o: map<string, Value>): (r: Result<DoctorUpdate, seq<Issue>>)
    ensures r.Ok? <==> DoctorUpdateFieldsPass(o)
    ensures r.Ok? ==>
      FieldOf(o, "id") == Some(JNumber(r.value.id))
      && |r.value.firstName| >= 1 && |r.value.lastName| >= 1
      && r.value.firstName == StringOf(FieldOf(o, "firstName"))
      && r.value.lastName == StringOf(FieldOf(o, "lastName"))
  {
    var checks := [ ("id", IsNumber(FieldOf(o, "id"))),
                    ("firstName", NonEmptyString(FieldOf(o, "firstName"))),
                    ("lastName", NonEmptyString(FieldOf(o, "lastName"))),
                    ("phone", IsString(FieldOf(o, "phone"))),
                    ("bio", IsString(FieldOf(o, "bio"))),
                    ("specialityId", IsNumber(FieldOf(o, "specialityId"))) ];
    var issues := FieldIssues(checks);
    if issues != [] then
      assert !DoctorUpdateFieldsPass(o) by {
        var j :| 0 <= j < |checks| && !checks[j].1 && issues[0] == Issue([checks[j].0]);
      }
      Err(issues)
    else
      assert checks[0].1 && checks[1].1 && checks[2].1;
      assert checks[3].1 && checks[4].1 && checks[5].1;
      Ok(DoctorUpdate(FieldOf(o, "id").value.x, StringOf(FieldOf(o, "firstName")), StringOf(FieldOf(o, "lastName")),
                      StringOf(FieldOf(o, "phone")), StringOf(FieldOf(o, "bio")), FieldOf(o, "specialityId").value.x))
  }

  /** The update ignores whatever password, e-mail or licence a body carries. */
  lemma DoctorUpdateIgnoresCredentials(o: map<string, Value>, extra: map<string, Value>)
    requires forall k :: k in extra ==> k in {"email", "password", "repeatPassword", "licenseNumber"}
    ensures ParseDoctorUpdate(o + extra) == ParseDoctorUpdate(o)
  {
    var o' := o + extra;
    assert FieldOf(o', "id") == FieldOf(o, "id");
    assert FieldOf(o', "firstName") == FieldOf(o, "firstName");
    assert FieldOf(o', "lastName") == FieldOf(o, "lastName");
    assert FieldOf(o', "phone") == FieldOf(o, "phone");
    assert FieldOf(o', "bio") == FieldOf(o, "bio");
    assert FieldOf(o', "specialityId") == FieldOf(o, "specialityId");
  }

  datatype AdminDoctor = AdminDoctor(firstName: string, lastName: string, phone: string, email: string,
                                     licenseNumber: string, bio: string, specialtyId: real)

  predicate AdminFieldsPass(o: map<string, Value>, isEmail: string -> bool)
  {
    NonEmptyString(FieldOf(o, "firstName")) && NonEmptyString(FieldOf(o, "lastName"))
    && IsString(FieldOf(o, "phone"))
    && IsString(FieldOf(o, "email")) && isEmail(StringOf(FieldOf(o, "email")))
    && NonEmptyString(FieldOf(o, "licenseNumber")) && IsString(FieldOf(o, "bio"))
    && IsNumber(FieldOf(o, "specialtyId")) && FieldOf(o, "specialtyId").value.x >= 1.0
  }

  /** `DoctorCreateByAdminSchema.safeParse(o)`: no password, a non-empty
      licence, and a `specialtyId` of at least 1 that need not be whole. */
  function ParseDoctorByAdmin(o: map<string, Value>, isEmail: string -> bool): (r: Result<AdminDoctor, seq<Issue>>)
    ensures r.Ok? <==> AdminFieldsPass(o, isEmail)
    ensures r.Ok? ==>
      |r.value.licenseNumber| >= 1 && r.value.specialtyId >= 1.0
      && r.value.licenseNumber == StringOf(FieldOf(o, "licenseNumber"))
      && FieldOf(o, "specialtyId") == Some(JNumber(r.value.specialtyId))
    ensures r.Err? ==> |r.error| >= 1
  {
    var checks := [ ("firstName", NonEmptyString(FieldOf(o, "firstName"))),
                    ("lastName", NonEmptyString(FieldOf(o, "lastName"))),
                    ("phone", IsString(FieldOf(o, "phone"))),
                    ("email", IsString(FieldOf(o, "email")) && isEmail(StringOf(FieldOf(o, "email")))),
                    ("licenseNumber", NonEmptyString(FieldOf(o, "licenseNumber"))),
                    ("bio", IsString(FieldOf(o, "bio"))),
                    ("specialtyId", IsNumber(FieldOf(o, "specialtyId")) && FieldOf(o, "specialtyId").value.x >= 1.0) ];
    var issues := FieldIssues(checks);
    if issues != [] then
      assert !AdminFieldsPass(o, isEmail) by {
        var j :| 0 <= j < |checks| && !checks[j].1 && issues[0] == Issue([checks[j].0]);
      }
      Err(issues)
    else
      assert checks[0].1 && checks[1].1 && checks[2].1 && checks[3].1;
      assert checks[4].1 && checks[5].1 && checks[6].1;
      Ok(AdminDoctor(StringOf(FieldOf(o, "firstName")), StringOf(FieldOf(o, "lastName")),
                     StringOf(FieldOf(o, "phone")), StringOf(FieldOf(o, "email")),
                     StringOf(FieldOf(o, "licenseNumber")), StringOf(FieldOf(o, "bio")),
                     FieldOf(o, "specialtyId").value.x))
  }

  /** A doctor signing up may leave the licence empty; an administrator
      creating the same doctor may not. */
  lemma EmptyLicenceOnlyOnSignUp(o: map<string, Value>, isEmail: string -> bool)
    requires ParseDoctorCreate(o, isEmail).Ok?
    ensures ParseDoctorCreate(o["licenseNumber" := JString("")], isEmail).Ok?
    ensures ParseDoctorByAdmin(o["licenseNumber" := JString("")], isEmail).Err?
  {
    var o' := o["licenseNumber" := JString("")];
    assert FieldOf(o', "licenseNumber") == Some(JString(""));
    assert forall k :: k != "licenseNumber" ==> FieldOf(o', k) == FieldOf(o, k);
    assert UserFieldsPass(o', isEmail) && Confirmed(o');
  }

  // ---- src/validations/patient.ts ----

  /** `dateOfBirth` keeps the body's value; whether it makes a valid `Date`
      is the test `isDate`, standing for the preprocessing and `z.date`. */
  datatype NewPatient = NewPatient(user: NewUser, dateOfBirth: Value, gender: string, dni: string)

  /** `dateOfBirth`: present, and a valid date once preprocessed. */
  predicate BirthDate(v: Option<Value>, isDate: Value -> bool)
  {
    v.Some? && isDate(v.value)
  }

  predicate PatientFieldsPass(o: map<string, Value>, isEmail: string -> bool, isDate: Value -> bool)
  {
    UserFieldsPass(o, isEmail)
    && BirthDate(FieldOf(o, "dateOfBirth"), isDate)
    && IsString(FieldOf(o, "gender")) && IsString(FieldOf(o, "dni"))
  }

  /** The user checks followed by the patient's own three. */
  function PatientChecks(o: map<string, Value>, isEmail: string -> bool, isDate: Value -> bool): seq<(string, bool)>
  {
    UserChecks(o, isEmail)
    + [ ("dateOfBirth", BirthDate(FieldOf(o, "dateOfBirth"), isDate)),
        ("gender", IsString(FieldOf(o, "gender"))),
        ("dni", IsString(FieldOf(o, "dni"))) ]
  }

  lemma PatientChecksIff(o: map<string, Value>, isEmail: string -> bool, isDate: Value -> bool)
    ensures FieldIssues(PatientChecks(o, isEmail, isDate)) == [] <==> PatientFieldsPass(o, isEmail, isDate)
  {
    var own := [ ("dateOfBirth", BirthDate(FieldOf(o, "dateOfBirth"), isDate)),
                 ("gender", IsString(FieldOf(o, "gender"))),
                 ("dni", IsString(FieldOf(o, "dni"))) ];
    assert PatientChecks(o, isEmail, isDate) == UserChecks(o, isEmail) + own;
    ChecksPassAppend(UserChecks(o, isEmail), own);
    UserChecksIff(o, isEmail);
    if FieldIssues(own) == [] {
      assert own[0].1 && own[1].1 && own[2].1;
    } else {
      var issues := FieldIssues(own);
      var j :| 0 <= j < |own| && !own[j].1 && issues[0] == Issue([own[j].0]);
    }
  }

  /** `PatientCreateSchema.safeParse(o)`. */
  function ParsePatientCreate(o: map<string, Value>, isEmail: string -> bool, isDate: Value -> bool): (r: Result<NewPatient, seq<Issue>>)
    ensures r.Ok? <==> PatientFieldsPass(o, isEmail, isDate) && Confirmed(o)
    ensures r.Ok? ==>
      ParseUserCreate(o, isEmail) == Ok(r.value.user)
      && FieldOf(o, "dateOfBirth") == Some(r.value.dateOfBirth) && isDate(r.value.dateOfBirth)
    ensures r.Err? && PatientFieldsPass(o, isEmail, isDate) ==> r.error == [Issue(["repeatPassword"])]
  {
    var issues := FieldIssues(PatientChecks(o, isEmail, isDate));
    PatientChecksIff(o, isEmail, isDate);
    if issues != [] then Err(issues)
    else
      Refined(issues, o, NewPatient(UserOf(o), FieldOf(o, "dateOfBirth").value,
                                    StringOf(FieldOf(o, "gender")), StringOf(FieldOf(o, "dni"))))
  }
}
