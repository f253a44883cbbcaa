/** The guarded time helpers of the appointment service: `timeToMinutes`
    and `minutesToTime`. Times are counted in whole seconds since midnight
    (the service's floating-point minutes times 60), in integer
    arithmetic. */
module AppointmentTime {
  import opened Js

  /** `timeToMinutes`, in seconds: fewer than two ':'-separated parts, or
      a part that is not a number, gives 0; otherwise hours, minutes and
      (when present) seconds add up. Parts after the third are ignored. */
  function TimeToSeconds(t: string): int
  {
    var parts := Split(t, ':');
    if |parts| < 2 || exists i :: 0 <= i < |parts| && Number(parts[i]).NaN? then 0
    else
      var h := Number(parts[0]).v;
      var m := Number(parts[1]).v;
      var s := if |parts| >= 3 then Number(parts[2]).v else 0;
      h * 3600 + m * 60 + s
  }

  /** `v.toString().padStart(2, '0')`. */
  function Pad(v: int): string
  {
    PadStart2(IntToString(v))
  }

  /** `minutesToTime`, in seconds: a negative time renders as "00:00:00";
      otherwise hours, minutes and seconds, each padded to two digits and
      joined with ':'. Hours past 99 take more digits. */
  function SecondsToTime(n: int): string
  {
    if n < 0 then "00:00:00"
    else Join([Pad(n / 3600), Pad((n % 3600) / 60), Pad(n % 60)], ':')
  }

  /** Two decimal digits of `v < 100`. */
  function TwoDigits(v: nat): (r: string)
    requires v < 100
    ensures |r| == 2 && IsDigit(r[0]) && IsDigit(r[1])
    ensures DigitValue(r[0]) * 10 + DigitValue(r[1]) == v
  {
    [DigitChar(v / 10), DigitChar(v % 10)]
  }

  /** A time in the canonical "HH:MM:SS" form: two-digit hours 00-99,
      minutes and seconds 00-59. */
  predicate Canonical(t: string)
  {
    |t| == 8 && t[2] == ':' && t[5] == ':'
    && IsDigit(t[0]) && IsDigit(t[1])
    && '0' <= t[3] <= '5' && IsDigit(t[4])
    && '0' <= t[6] <= '5' && IsDigit(t[7])
  }

  /** The seconds a canonical time stands for, read digit by digit. */
  function ClockValue(t: string): int
    requires Canonical(t)
  {
    36000 * DigitValue(t[0]) + 3600 * DigitValue(t[1]) + 600 * DigitValue(t[3])
    + 60 * DigitValue(t[4]) + 10 * DigitValue(t[6]) + DigitValue(t[7])
  }

  lemma DigitRoundTrip(c: char)
    requires IsDigit(c)
    ensures DigitChar(DigitValue(c)) == c
  {
  }

  lemma PadIsTwoDigits(v: int)
    requires 0 <= v < 100
    ensures Pad(v) == TwoDigits(v)
  {
    var q, r := v / 10, v % 10;
    assert v == 10 * q + r && 0 <= q < 10 && 0 <= r < 10;
    if v < 10 {
      assert q == 0 && r == v;
      assert NatToString(v) == [DigitChar(v)];
      assert seq(1, _ => '0') == ['0'];
    } else {
      assert NatToString(q) == [DigitChar(q)];
      assert NatToString(v) == NatToString(q) + [DigitChar(r)];
    }
  }

  /** The text `SecondsToTime` writes for a time below 100 hours. */
  lemma RenderedDigits(n: int)
    requires 0 <= n < 360000
    ensures SecondsToTime(n) == TwoDigits(n / 3600) + ":" + TwoDigits((n % 3600) / 60) + ":" + TwoDigits(n % 60)
  {
    PadIsTwoDigits(n / 3600);
    PadIsTwoDigits((n % 3600) / 60);
    PadIsTwoDigits(n % 60);
    JoinThree(TwoDigits(n / 3600), TwoDigits((n % 3600) / 60), TwoDigits(n % 60));
  }

  /** Hours, minutes and seconds of a time below 100 hours. */
  lemma Decompose(n: int)
    requires 0 <= n < 360000
    ensures 0 <= n / 3600 < 100 && 0 <= (n % 3600) / 60 < 60 && 0 <= n % 60 < 60
    ensures n == (n / 3600) * 3600 + ((n % 3600) / 60) * 60 + n % 60
  {
  }

  /** Euclidean division by 3600 is determined by quotient and remainder. */
  lemma DivideHours(n: int, q: int, r: int)
    requires n == q * 3600 + r && 0 <= r < 3600
    ensures n / 3600 == q && n % 3600 == r
  {
  }

  lemma DivideMinutes(n: int, q: int, r: int)
    requires n == q * 60 + r && 0 <= r < 60
    ensures n / 60 == q && n % 60 == r
  {
  }

  /** Splitting `h * 3600 + m * 60 + s` back into its parts. */
  lemma Compose(h: int, m: int, s: int)
    requires 0 <= h && 0 <= m < 60 && 0 <= s < 60
    ensures (h * 3600 + m * 60 + s) / 3600 == h
    ensures ((h * 3600 + m * 60 + s) % 3600) / 60 == m
    ensures (h * 3600 + m * 60 + s) % 60 == s
  {
    var n := h * 3600 + m * 60 + s;
    DivideHours(n, h, m * 60 + s);
    DivideMinutes(m * 60 + s, m, s);
    DivideMinutes(n, h * 60 + m, s);
  }

  /** Three fields joined with ':'. */
  lemma JoinThree(x: string, y: string, z: string)
    ensures Join([x, y, z], ':') == x + ":" + y + ":" + z
  {
    var parts := [x, y, z];
    assert parts[1..] == [y, z] && parts[1..][1..] == [z];
    assert Join([z], ':') == z;
    assert Join([y, z], ':') == y + [':'] + z;
  }

  /** A canonical time is the join of its three two-digit fields. */
  lemma CanonicalFields(t: string)
    requires Canonical(t)
    ensures Split(t, ':') == [t[0..2], t[3..5], t[6..8]]
  {
    var parts := [t[0..2], t[3..5], t[6..8]];
    JoinThree(t[0..2], t[3..5], t[6..8]);
    Glue(t);
    forall i | 0 <= i < 3
      ensures ':' !in parts[i]
    {
      assert |parts[i]| == 2 && IsDigit(parts[i][0]) && IsDigit(parts[i][1]);
    }
    SplitJoin(parts, ':');
  }

  lemma TwoDigitField(d: string)
    requires |d| == 2 && IsDigit(d[0]) && IsDigit(d[1])
    ensures Number(d) == Num(10 * DigitValue(d[0]) + DigitValue(d[1]))
  {
    assert d[..1] == [d[0]];
    assert DigitsValue(d[..1]) == DigitValue(d[0]);
  }

  /** `timeToMinutes` reads a canonical time as the seconds its digits spell. */
  lemma CanonicalSeconds(t: string)
    requires Canonical(t)
    ensures TimeToSeconds(t) == ClockValue(t)
    ensures 0 <= TimeToSeconds(t) < 360000
  {
    CanonicalFields(t);
    var parts := Split(t, ':');
    TwoDigitField(parts[0]);
    TwoDigitField(parts[1]);
    TwoDigitField(parts[2]);
    assert forall i :: 0 <= i < |parts| ==> Number(parts[i]).Num?;
  }

  /** Every time below 100 hours renders canonically and reads back as itself. */
  lemma {:induction false} SecondsRoundTrip(n: int)
    requires 0 <= n < 360000
    ensures Canonical(SecondsToTime(n))
    ensures TimeToSeconds(SecondsToTime(n)) == n
  {
    Decompose(n);
    RenderedDigits(n);
    FieldsCanonical(n / 3600, (n % 3600) / 60, n % 60);
    CanonicalSeconds(SecondsToTime(n));
  }

  /** Hours, minutes and seconds in range make a canonical text that
      stands for their seconds. */
  lemma FieldsCanonical(h: int, m: int, s: int)
    requires 0 <= h < 100 && 0 <= m < 60 && 0 <= s < 60
    ensures var t := TwoDigits(h) + ":" + TwoDigits(m) + ":" + TwoDigits(s);
      Canonical(t) && ClockValue(t) == h * 3600 + m * 60 + s
  {
    var x, y, z := TwoDigits(h), TwoDigits(m), TwoDigits(s);
    var t := x + ":" + y + ":" + z;
    assert t[0] == x[0] && t[1] == x[1] && t[2] == ':' && t[3] == y[0] && t[4] == y[1];
    assert t[5] == ':' && t[6] == z[0] && t[7] == z[1];
  }

  /** A two-digit field reads and renders back to itself. */
  lemma FieldRoundTrip(d: string)
    requires |d| == 2 && IsDigit(d[0]) && IsDigit(d[1])
    ensures TwoDigits(10 * DigitValue(d[0]) + DigitValue(d[1])) == d
  {
    DigitRoundTrip(d[0]);
    DigitRoundTrip(d[1]);
  }

  /** The seconds of a canonical time, field by field. */
  lemma ClockFields(t: string)
    requires Canonical(t)
    ensures ClockValue(t) == (10 * DigitValue(t[0]) + DigitValue(t[1])) * 3600
      + (10 * DigitValue(t[3]) + DigitValue(t[4])) * 60 + (10 * DigitValue(t[6]) + DigitValue(t[7]))
  {
  }

  /** The text of `h * 3600 + m * 60 + s`, field by field. */
  lemma RenderedFields(h: int, m: int, s: int)
    requires 0 <= h < 100 && 0 <= m < 60 && 0 <= s < 60
    ensures SecondsToTime(h * 3600 + m * 60 + s) == TwoDigits(h) + ":" + TwoDigits(m) + ":" + TwoDigits(s)
  {
    Compose(h, m, s);
    RenderedDigits(h * 3600 + m * 60 + s);
  }

  /** A string of length 8 with ':' at 2 and 5 is its three fields joined. */
  lemma Glue(t: string)
    requires |t| == 8 && t[2] == ':' && t[5] == ':'
    ensures t == t[0..2] + ":" + t[3..5] + ":" + t[6..8]
  {
  }

  /** A canonical time reads and renders back to the same text. */
  lemma {:induction false} TimeRoundTrip(t: string)
    requires Canonical(t)
    ensures SecondsToTime(TimeToSeconds(t)) == t
  {
    CanonicalSeconds(t);
    ClockFields(t);
    var x, y, z := t[0..2], t[3..5], t[6..8];
    var h, m, s := 10 * DigitValue(x[0]) + DigitValue(x[1]), 10 * DigitValue(y[0]) + DigitValue(y[1]),
      10 * DigitValue(z[0]) + DigitValue(z[1]);
    assert TimeToSeconds(t) == h * 3600 + m * 60 + s;
    FieldRoundTrip(x);
    FieldRoundTrip(y);
    FieldRoundTrip(z);
    RenderedFields(h, m, s);
    Glue(t);
  }

  /** `StrLt` is decided by the first position where two strings of equal
      length differ. */
  lemma {:induction false} StrLtAtFirstDifference(a: string, b: string, k: int)
    requires |a| == |b| && 0 <= k < |a|
    requires a[..k] == b[..k] && a[k] != b[k]
    ensures StrLt(a, b) <==> a[k] < b[k]
  {
    if k > 0 {
      assert a[0] == a[..k][0] && b[0] == b[..k][0];
      assert a[1..][..k - 1] == a[..k][1..] && b[1..][..k - 1] == b[..k][1..];
      StrLtAtFirstDifference(a[1..], b[1..], k - 1);
    }
  }

  /** On canonical times, string order is time order. */
  lemma CanonicalOrder(a: string, b: string)
    requires Canonical(a) && Canonical(b)
    ensures StrLt(a, b) <==> ClockValue(a) < ClockValue(b)
    ensures a == b <==> ClockValue(a) == ClockValue(b)
  {
    if a[0] == b[0] && a[1] == b[1] && a[3] == b[3] && a[4] == b[4] && a[6] == b[6] && a[7] == b[7] {
      assert forall i :: 0 <= i < 8 ==> a[i] == b[i];
      assert a == b;
      StrLtIrreflexive(a);
    } else {
      var k := if a[0] != b[0] then 0 else if a[1] != b[1] then 1 else if a[3] != b[3] then 3
               else if a[4] != b[4] then 4 else if a[6] != b[6] then 6 else 7;
      assert a[..k] == b[..k] by {
        assert forall i :: 0 <= i < k ==> a[i] == b[i];
      }
      StrLtAtFirstDifference(a, b, k);
    }
  }

  /** On times below 100 hours, the rendered strings compare like the times. */
  lemma RenderedOrder(x: int, y: int)
    requires 0 <= x < 360000 && 0 <= y < 360000
    ensures StrLt(SecondsToTime(x), SecondsToTime(y)) <==> x < y
    ensures SecondsToTime(x) == SecondsToTime(y) <==> x == y
  {
    SecondsRoundTrip(x);
    SecondsRoundTrip(y);
    CanonicalSeconds(SecondsToTime(x));
    CanonicalSeconds(SecondsToTime(y));
    CanonicalOrder(SecondsToTime(x), SecondsToTime(y));
  }

  /** Malformed input falls back to 0: a string without ':' is a single
      part. */
  lemma SinglePartIsZero(t: string)
    requires ':' !in t
    ensures TimeToSeconds(t) == 0
  {
    SplitJoin([t], ':');
  }

  /** Malformed input falls back to 0: one part that `Number` cannot read
      makes the whole time 0, whatever the other parts hold. */
  lemma NonNumericPartIsZero(parts: seq<string>, i: int)
    requires forall j :: 0 <= j < |parts| ==> ':' !in parts[j]
    requires 0 <= i < |parts| && Number(parts[i]).NaN?
    ensures TimeToSeconds(Join(parts, ':')) == 0
  {
    SplitJoin(parts, ':');
  }

  /** Seconds may be left out: "H:M" with decimal H and M is H hours and M
      minutes; and a negative time renders as midnight. */
  lemma HoursAndMinutes(h: string, m: string, n: int)
    requires AllDigits(h) && AllDigits(m)
    ensures TimeToSeconds(h + ":" + m) == DigitsValue(h) * 3600 + DigitsValue(m) * 60
    ensures n < 0 ==> SecondsToTime(n) == "00:00:00"
  {
    var parts := [h, m];
    assert ':' !in h && ':' !in m;
    assert Join(parts, ':') == h + ":" + m;
    SplitJoin(parts, ':');
  }

  /** The first and last morning slots of a 09:00-17:00 day with rest at 13:00, as text. */
  lemma WorkedExampleText()
    ensures SecondsToTime(9 * 3600) == "09:00:00"
    ensures SecondsToTime(12 * 3600 + 30 * 60 + 0) == "12:30:00"
    ensures SecondsToTime(13 * 3600) == "13:00:00"
  {
    NineOClock();
    HalfPastTwelve();
    OneOClock();
  }

  lemma NineOClock()
    ensures SecondsToTime(9 * 3600) == "09:00:00"
  {
    RenderedFields(9, 0, 0);
    NineOClockFields();
  }

  lemma NineOClockFields()
    ensures TwoDigits(9) + ":" + TwoDigits(0) + ":" + TwoDigits(0) == "09:00:00"
  {
    assert TwoDigits(9) == "09";
    assert TwoDigits(0) == "00";
  }

  lemma HalfPastTwelve()
    ensures SecondsToTime(12 * 3600 + 30 * 60 + 0) == "12:30:00"
  {
    RenderedFields(12, 30, 0);
    HalfPastTwelveFields();
  }

  lemma HalfPastTwelveFields()
    ensures TwoDigits(12) + ":" + TwoDigits(30) + ":" + TwoDigits(0) == "12:30:00"
  {
    assert TwoDigits(12) == "12";
    assert TwoDigits(30) == "30";
    assert TwoDigits(0) == "00";
  }

  lemma OneOClock()
    ensures SecondsToTime(13 * 3600) == "13:00:00"
  {
    RenderedFields(13, 0, 0);
    OneOClockFields();
  }

  lemma OneOClockFields()
    ensures TwoDigits(13) + ":" + TwoDigits(0) + ":" + TwoDigits(0) == "13:00:00"
  {
    assert TwoDigits(13) == "13";
    assert TwoDigits(0) == "00";
  }
}
