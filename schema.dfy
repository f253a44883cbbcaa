/** What the zod schemas of `src/validations` see and report: a parsed JSON
    body, the issues a failed parse lists, zod's primitive checks, and the
    two regular expressions the schemas share (`timeRegex` and `dateRegex`),
    each rewritten as a character predicate. */
module Schema {
  import opened Base
  import opened Js

  /** A JSON value as `express.json()` hands it to a schema. A key missing
      from an object reads as `undefined`, modelled by `FieldOf` as `None`. */
  datatype Value =
    | JNull
    | JBool(b: bool)
    | JNumber(x: real)
    | JString(s: string)
    | JArray(items: seq<Value>)
    | JObject(fields: map<string, Value>)

  /** One entry of `error.issues`, reduced to its path. */
  datatype Issue = Issue(path: seq<string>)

  /** The field `key` of an object, or `undefined`. */
  function FieldOf(o: map<string, Value>, key: string): (v: Option<Value>)
    ensures v.Some? <==> key in o
  {
    if key in o then Some(o[key]) else None
  }

  /** `Number.MAX_SAFE_INTEGER`, 2^53 - 1. */
  const MaxSafeInteger: int := 9007199254740991

  /** `Number.isSafeInteger` on a JSON number: the test zod 4's `.int()`
      applies, so an integer beyond 2^53 - 1 in magnitude is refused. */
  predicate IsSafeInteger(x: real)
  {
    x.Floor as real == x && -(MaxSafeInteger as real) <= x <= MaxSafeInteger as real
  }

  /** `z.number().int().positive()`. */
  predicate PositiveInt(v: Option<Value>)
  {
    v.Some? && v.value.JNumber? && IsSafeInteger(v.value.x) && v.value.x > 0.0
  }

  /** `z.number().int().min(k)`. */
  predicate IntAtLeast(v: Option<Value>, k: int)
  {
    v.Some? && v.value.JNumber? && IsSafeInteger(v.value.x) && v.value.x >= k as real
  }

  /** An identifier of 10^16, an integer JSON number, is refused as not
      safe; 2^53 - 1 is the largest one accepted. */
  lemma UnsafeIdRefused()
    ensures !PositiveInt(Some(JNumber(10000000000000000.0)))
    ensures PositiveInt(Some(JNumber(MaxSafeInteger as real)))
    ensures forall x: real :: x > MaxSafeInteger as real ==> !PositiveInt(Some(JNumber(x)))
  {
  }

  /** `z.number()`. */
  predicate IsNumber(v: Option<Value>)
  {
    v.Some? && v.value.JNumber?
  }

  /** `z.string()`. */
  predicate IsString(v: Option<Value>)
  {
    v.Some? && v.value.JString?
  }

  /** `z.string().min(1)`. */
  predicate NonEmptyString(v: Option<Value>)
  {
    IsString(v) && |v.value.s| >= 1
  }

  /** `z.string().optional()`. */
  predicate OptionalString(v: Option<Value>)
  {
    v.None? || v.value.JString?
  }

  /** The integer a value that passed `z.number().int()` holds. */
  function IntOf(v: Option<Value>): int
  {
    if v.Some? && v.value.JNumber? then v.value.x.Floor else 0
  }

  /** The string a value that passed `z.string()` holds. */
  function StringOf(v: Option<Value>): string
  {
    if v.Some? && v.value.JString? then v.value.s else ""
  }

  /** One issue per field that fails, in the order the fields are declared. */
  function FieldIssues(checks: seq<(string, bool)>): (issues: seq<Issue>)
    ensures issues == [] <==> forall i :: 0 <= i < |checks| ==> checks[i].1
    ensures forall i :: 0 <= i < |issues| ==> exists j :: 0 <= j < |checks| && !checks[j].1 && issues[i] == Issue([checks[j].0])
  {
    if checks == [] then []
    else
      var rest := FieldIssues(checks[1..]);
      assert forall i :: 0 <= i < |rest| ==> exists j :: 1 <= j < |checks| && !checks[j].1 && rest[i] == Issue([checks[j].0]) by {
        forall i | 0 <= i < |rest|
          ensures exists j :: 1 <= j < |checks| && !checks[j].1 && rest[i] == Issue([checks[j].0])
        {
          var j :| 0 <= j < |checks[1..]| && !checks[1..][j].1 && rest[i] == Issue([checks[1..][j].0]);
          assert checks[1..][j] == checks[j + 1];
        }
      }
      (if checks[0].1 then [] else [Issue([checks[0].0])]) + rest
  }

  /** Every issue a field check raises names one field. */
  lemma FieldIssuesName(checks: seq<(string, bool)>)
    ensures forall i :: 0 <= i < |FieldIssues(checks)| ==> |FieldIssues(checks)[i].path| == 1
  {
    var issues := FieldIssues(checks);
    forall i | 0 <= i < |issues| ensures |issues[i].path| == 1 {
      var j :| 0 <= j < |checks| && !checks[j].1 && issues[i] == Issue([checks[j].0]);
    }
  }

  /** Two lists of checks raise no issue together exactly when neither does. */
  lemma ChecksPassAppend(a: seq<(string, bool)>, b: seq<(string, bool)>)
    ensures FieldIssues(a + b) == [] <==> FieldIssues(a) == [] && FieldIssues(b) == []
  {
    assert forall i :: 0 <= i < |a| ==> (a + b)[i] == a[i];
    assert forall i :: 0 <= i < |b| ==> (a + b)[|a| + i] == b[i];
  }

  /** `z.string().regex(timeRegex)`. */
  predicate TimeString(v: Option<Value>)
  {
    IsString(v) && TimeText(StringOf(v))
  }

  /** `z.string().regex(dateRegex)`. */
  predicate DateString(v: Option<Value>)
  {
    IsString(v) && DateText(StringOf(v))
  }

  /** A field of a `.partial()` schema: absent, or passing its check. */
  predicate Optional(v: Option<Value>, ok: bool)
  {
    v.None? || ok
  }

  /** The `superRefine` shared by the availability, appointment and
      block-slot schemas: `data.start_time >= data.end_time`, a comparison
      of the two strings by character code. */
  predicate OrderRefused(o: map<string, Value>)
  {
    !StrLt(StringOf(FieldOf(o, "start_time")), StringOf(FieldOf(o, "end_time")))
  }

  /** "10:00" then "09:00": both have the time format, and the order
      refinement refuses them as start and end. */
  lemma InvertedPair()
    ensures TimeText("10:00") && TimeText("09:00")
    ensures OrderRefused(map["start_time" := JString("10:00"), "end_time" := JString("09:00")])
  {
    assert TimeText("10:00") by { assert "10:00"[..2] == "10" && "10:00"[2..] == ":00" && ":00"[1..3] == "00"; }
    assert TimeText("09:00") by { assert "09:00"[..2] == "09" && "09:00"[2..] == ":00" && ":00"[1..3] == "00"; }
    assert !StrLt("10:00", "09:00");
  }

  // ---- timeRegex: ^([01]?[0-9]|2[0-3]):[0-5][0-9](:[0-5][0-9])?$ ----

  /** `[01]?[0-9]|2[0-3]`, the whole of `h`. */
  predicate HourText(h: string)
  {
    (|h| == 1 && IsDigit(h[0]))
    || (|h| == 2 && (h[0] == '0' || h[0] == '1') && IsDigit(h[1]))
    || (|h| == 2 && h[0] == '2' && '0' <= h[1] <= '3')
  }

  /** `[0-5][0-9]`, the whole of `m`. */
  predicate SixtyText(m: string)
  {
    |m| == 2 && '0' <= m[0] <= '5' && IsDigit(m[1])
  }

  /** `:[0-5][0-9](:[0-5][0-9])?`, the whole of `r`. */
  predicate ClockTail(r: string)
  {
    |r| >= 3 && r[0] == ':' && SixtyText(r[1..3])
    && (|r| == 3 || (|r| == 6 && r[3] == ':' && SixtyText(r[4..6])))
  }

  /** `timeRegex.test(s)`: the hour takes one or two characters. */
  predicate TimeText(s: string)
  {
    (|s| >= 1 && HourText(s[..1]) && ClockTail(s[1..]))
    || (|s| >= 2 && HourText(s[..2]) && ClockTail(s[2..]))
  }

  /** An hour field: one or two digits worth at most 23. */
  predicate HourValue(h: string)
  {
    1 <= |h| <= 2 && AllDigits(h) && DigitsValue(h) <= 23
  }

  /** A minute or second field: exactly two digits worth at most 59. */
  predicate SixtyValue(m: string)
  {
    |m| == 2 && AllDigits(m) && DigitsValue(m) <= 59
  }

  /** The value of one or two digits. */
  lemma ShortDigitsValue(d: string)
    requires 1 <= |d| <= 2 && AllDigits(d)
    ensures |d| == 1 ==> DigitsValue(d) == DigitValue(d[0])
    ensures |d| == 2 ==> DigitsValue(d) == 10 * DigitValue(d[0]) + DigitValue(d[1])
  {
    assert d[..|d| - 1][..0] == [];
    if |d| == 1 {
      assert d[..0] == [];
    } else {
      assert d[..1] == [d[0]];
      assert DigitsValue([d[0]]) == 10 * DigitsValue([d[0]][..0]) + DigitValue(d[0]);
    }
  }

  lemma HourTextIff(h: string)
    ensures HourText(h) <==> HourValue(h)
  {
    if 1 <= |h| <= 2 && AllDigits(h) {
      ShortDigitsValue(h);
    }
  }

  lemma SixtyTextIff(m: string)
    ensures SixtyText(m) <==> SixtyValue(m)
  {
    if |m| == 2 && AllDigits(m) {
      ShortDigitsValue(m);
    }
  }

  /** Joining two or three pieces. */
  lemma JoinShort(q: seq<string>, sep: char)
    ensures |q| == 2 ==> Join(q, sep) == q[0] + [sep] + q[1]
    ensures |q| == 3 ==> Join(q, sep) == q[0] + [sep] + q[1] + [sep] + q[2]
  {
    if |q| == 3 {
      assert q[1..][1..] == [q[2]];
      assert Join(q[1..], sep) == q[1] + [sep] + q[2];
    }
    if |q| == 2 {
      assert q[1..] == [q[1]];
    }
  }

  /** The ':'-separated fields of a time: two or three, an hour 0-23
      written with one or two digits, then minutes and optional seconds
      00-59 written with two. */
  predicate TimeFields(p: seq<string>)
  {
    (|p| == 2 || |p| == 3) && HourValue(p[0]) && SixtyValue(p[1]) && (|p| == 3 ==> SixtyValue(p[2]))
  }

  /** Fields without ':' give the joined string back when split. */
  lemma SplitDigitFields(q: seq<string>)
    requires 2 <= |q| <= 3
    requires forall i :: 0 <= i < |q| ==> AllDigits(q[i])
    ensures Split(Join(q, ':'), ':') == q
  {
    assert forall i :: 0 <= i < |q| ==> ':' !in q[i] by {
      forall i | 0 <= i < |q| ensures ':' !in q[i] { assert AllDigits(q[i]); }
    }
    SplitJoin(q, ':');
  }

  lemma TimeTextHasFields(s: string)
    requires TimeText(s)
    ensures TimeFields(Split(s, ':'))
  {
    var k := if |s| >= 1 && HourText(s[..1]) && ClockTail(s[1..]) then 1 else 2;
    var h, r := s[..k], s[k..];
    HourTextIff(h);
    var m := r[1..3];
    SixtyTextIff(m);
    var q: seq<string>;
    if |r| == 3 {
      q := [h, m];
      assert s == h + [':'] + m;
    } else {
      var sec := r[4..6];
      SixtyTextIff(sec);
      q := [h, m, sec];
      assert s == h + [':'] + m + [':'] + sec;
    }
    JoinShort(q, ':');
    SplitDigitFields(q);
  }

  lemma FieldsMakeTimeText(s: string)
    requires TimeFields(Split(s, ':'))
    ensures TimeText(s)
  {
    var p := Split(s, ':');
    JoinSplit(s, ':');
    HourTextIff(p[0]);
    SixtyTextIff(p[1]);
    JoinShort(p, ':');
    var k := |p[0]|;
    if |p| == 2 {
      assert s == p[0] + [':'] + p[1];
      assert s[k..][1..3] == p[1];
    } else {
      SixtyTextIff(p[2]);
      assert s == p[0] + ([':'] + p[1] + [':'] + p[2]);
      var t := s[k..];
      assert t == [':'] + p[1] + [':'] + p[2];
      assert t[1..3] == p[1];
      assert t[4..6] == p[2];
    }
    assert s[..k] == p[0];
  }

  /** `timeRegex` accepts exactly the times whose fields are in range. */
  lemma TimeTextIff(s: string)
    ensures TimeText(s) <==> TimeFields(Split(s, ':'))
  {
    if TimeText(s) {
      TimeTextHasFields(s);
    }
    if TimeFields(Split(s, ':')) {
      FieldsMakeTimeText(s);
    }
  }

  // ---- dateRegex: ^\d{4}-\d{2}-\d{2}$ ----

  /** `dateRegex.test(s)`: four digits, '-', two digits, '-', two digits. */
  predicate DateText(s: string)
  {
    |s| == 10 && s[4] == '-' && s[7] == '-'
    && IsDigit(s[0]) && IsDigit(s[1]) && IsDigit(s[2]) && IsDigit(s[3])
    && IsDigit(s[5]) && IsDigit(s[6]) && IsDigit(s[8]) && IsDigit(s[9])
  }

  /** The date format in terms of its '-'-separated fields. Only the shape
      is checked: month 13 or day 45 pass. */
  lemma DateTextIff(s: string)
    ensures DateText(s) <==>
      var p := Split(s, '-');
      |p| == 3 && |p[0]| == 4 && |p[1]| == 2 && |p[2]| == 2
      && AllDigits(p[0]) && AllDigits(p[1]) && AllDigits(p[2])
  {
    var p := Split(s, '-');
    JoinSplit(s, '-');
    if DateText(s) {
      var q := [s[..4], s[5..7], s[8..]];
      assert s == q[0] + ['-'] + q[1] + ['-'] + q[2];
      assert forall i :: 0 <= i < |q| ==> '-' !in q[i] by {
        forall i | 0 <= i < |q| ensures '-' !in q[i] { assert AllDigits(q[i]); }
      }
      JoinShort(q, '-');
      SplitJoin(q, '-');
    }
    if |p| == 3 && |p[0]| == 4 && |p[1]| == 2 && |p[2]| == 2
      && AllDigits(p[0]) && AllDigits(p[1]) && AllDigits(p[2]) {
      JoinShort(p, '-');
      assert s == p[0] + ['-'] + p[1] + ['-'] + p[2];
      assert s[..4] == p[0] && s[5..7] == p[1] && s[8..] == p[2];
    }
  }

  /** A date whose month and day are out of range still has the format. */
  lemma DateOutOfRange()
    ensures DateText("2024-13-45")
  {
  }
}
