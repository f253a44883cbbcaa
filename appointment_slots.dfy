/** The slot walk of `generateAvailableSlots`, as a specification: a
    cursor starts at the rule's work start and moves in steps of
    `period_time`; each step's slot is kept unless it touches the rest
    window or its start string is already reserved. All times are whole
    seconds since midnight. */
module AppointmentSlots {
  import opened Js
  import opened Sequences
  import opened Models
  import opened AppointmentTime

  /** The numbers the walk reads from one availability rule. */
  datatype Window = Window(start: int, end: int, restStart: int, restEnd: int, step: int)

  function WindowOf(rule: Availability): Window
  {
    Window(TimeToSeconds(rule.startTime), TimeToSeconds(rule.endTime),
      TimeToSeconds(rule.restStartTime), TimeToSeconds(rule.restEndTime), 60 * rule.periodTime)
  }

  /** The three-way rest test of the loop for the slot starting at `s`. */
  predicate OverlapsRest(w: Window, s: int)
  {
    var e := s + w.step;
    (s >= w.restStart && s < w.restEnd) || (e > w.restStart && e <= w.restEnd) || (s < w.restStart && e > w.restEnd)
  }

  /** The cursor's next position: the slot's end, or the rest end when the
      slot crossed the rest start while starting before the rest end. */
  function Advance(w: Window, s: int): (next: int)
    requires w.step > 0
    ensures next > s
    ensures !OverlapsRest(w, s) ==> next == s + w.step
  {
    var e := s + w.step;
    if e <= w.restStart then e else if s < w.restEnd then w.restEnd else e
  }

  /** The starts the walk keeps, from cursor `s` on, skipping starts whose
      rendered text is in `reserved`. Every kept slot fits the work window,
      avoids the rest window and is unreserved, and kept slots are at least
      one period apart. */
  function FreeStarts(w: Window, reserved: set<string>, s: int): (xs: seq<int>)
    requires w.step > 0
    ensures forall i :: 0 <= i < |xs| ==>
      s <= xs[i] && xs[i] + w.step <= w.end && !OverlapsRest(w, xs[i]) && SecondsToTime(xs[i]) !in reserved
    ensures forall i, j :: 0 <= i < j < |xs| ==> xs[i] + w.step <= xs[j]
    decreases w.end - s
  {
    if s + w.step > w.end then []
    else
      var rest := FreeStarts(w, reserved, Advance(w, s));
      if !OverlapsRest(w, s) && SecondsToTime(s) !in reserved then
        KeepFront(w, reserved, s, rest);
        [s] + rest
      else rest
  }

  /** A kept start in front of the walk from its end keeps the walk's
      promises. */
  lemma KeepFront(w: Window, reserved: set<string>, s: int, rest: seq<int>)
    requires w.step > 0 && s + w.step <= w.end && !OverlapsRest(w, s) && SecondsToTime(s) !in reserved
    requires forall i :: 0 <= i < |rest| ==>
      s + w.step <= rest[i] && rest[i] + w.step <= w.end && !OverlapsRest(w, rest[i]) && SecondsToTime(rest[i]) !in reserved
    requires forall i, j :: 0 <= i < j < |rest| ==> rest[i] + w.step <= rest[j]
    ensures var xs := [s] + rest;
      (forall i :: 0 <= i < |xs| ==>
         s <= xs[i] && xs[i] + w.step <= w.end && !OverlapsRest(w, xs[i]) && SecondsToTime(xs[i]) !in reserved)
      && (forall i, j :: 0 <= i < j < |xs| ==> xs[i] + w.step <= xs[j])
  {
    var xs := [s] + rest;
    assert forall i :: 0 < i < |xs| ==> xs[i] == rest[i - 1];
  }

  /** `potentialSlots`: each kept start paired with its end one period later. */
  function Render(starts: seq<int>, step: int): (slots: seq<TimeSlot>)
    ensures |slots| == |starts|
    ensures forall i :: 0 <= i < |starts| ==>
      slots[i] == TimeSlot(SecondsToTime(starts[i]), SecondsToTime(starts[i] + step))
  {
    seq(|starts|, i requires 0 <= i < |starts| => TimeSlot(SecondsToTime(starts[i]), SecondsToTime(starts[i] + step)))
  }

  /** The slots `generateAvailableSlots` returns for one rule. */
  function FreeSlots(rule: Availability, reserved: set<string>): seq<TimeSlot>
    requires rule.periodTime > 0
  {
    var w := WindowOf(rule);
    Render(FreeStarts(w, reserved, w.start), w.step)
  }

  /** For a rest window that is not inverted, the three-way test is the
      plain interval-overlap test, so a slot ending exactly at the rest
      start, or starting exactly at the rest end, is kept. */
  lemma OverlapsRestIff(w: Window, s: int)
    requires w.step > 0 && w.restStart <= w.restEnd
    ensures OverlapsRest(w, s) <==> s < w.restEnd && s + w.step > w.restStart
  {
  }

  /** With an inverted rest window the three-way test drops a slot that
      lies between rest end and rest start. */
  lemma InvertedRestDropsSlot()
    ensures var w := Window(0, 20, 10, 5, 2);
      OverlapsRest(w, 6) && !(6 < w.restEnd && 6 + w.step > w.restStart)
  {
  }

  /** Reservations only remove starts: the walk with a reserved set is the
      walk without one, filtered by the reserved strings. */
  lemma {:induction false} ReservedOnlyFilters(w: Window, reserved: set<string>, s: int)
    requires w.step > 0
    ensures FreeStarts(w, reserved, s) == Filter(FreeStarts(w, {}, s), x => SecondsToTime(x) !in reserved)
    decreases w.end - s
  {
    if s + w.step <= w.end {
      ReservedOnlyFilters(w, reserved, Advance(w, s));
      var all := FreeStarts(w, {}, s);
      if !OverlapsRest(w, s) {
        assert all == [s] + FreeStarts(w, {}, Advance(w, s));
        assert all[1..] == FreeStarts(w, {}, Advance(w, s));
      }
    }
  }

  /** A reservation whose start string is not the text of a generated
      start removes nothing: only exact start matches count, not overlaps. */
  lemma UnmatchedReservationsRemoveNothing(w: Window, reserved: set<string>, s: int)
    requires w.step > 0
    requires forall x :: x in FreeStarts(w, {}, s) ==> SecondsToTime(x) !in reserved
    ensures FreeStarts(w, reserved, s) == FreeStarts(w, {}, s)
  {
    ReservedOnlyFilters(w, reserved, s);
    FilterKeepsAll(FreeStarts(w, {}, s), x => SecondsToTime(x) !in reserved);
  }

  /** The plain grid of starts `a, a + p, a + 2p, ...` whose slots end by `b`. */
  function Grid(a: int, b: int, p: int): seq<int>
    requires p > 0
    decreases b - a
  {
    if a + p > b then [] else [a] + Grid(a + p, b, p)
  }

  /** The grid has one start per whole period between `a` and `b`, the
      `i`-th at `a + i * p`. */
  lemma {:induction false} GridShape(a: int, b: int, p: int)
    requires p > 0
    ensures a <= b ==> |Grid(a, b, p)| * p <= b - a < |Grid(a, b, p)| * p + p
    ensures b < a ==> Grid(a, b, p) == []
    ensures forall i :: 0 <= i < |Grid(a, b, p)| ==> Grid(a, b, p)[i] == a + i * p
    decreases b - a
  {
    if a + p <= b {
      GridShape(a + p, b, p);
      var g := Grid(a, b, p);
      var k := |Grid(a + p, b, p)|;
      assert |g| == k + 1;
      assert (k + 1) * p == k * p + p;
      forall i | 0 < i < |g|
        ensures g[i] == a + i * p
      {
        assert g[i] == Grid(a + p, b, p)[i - 1];
        assert (i - 1) * p + p == i * p;
      }
    }
  }

  /** From or after the rest end, every period-long step is kept. */
  lemma {:induction false} Afternoon(w: Window, s: int)
    requires w.step > 0 && w.restStart <= w.restEnd && s >= w.restEnd
    ensures FreeStarts(w, {}, s) == Grid(s, w.end, w.step)
    decreases w.end - s
  {
    if s + w.step <= w.end {
      Afternoon(w, s + w.step);
    }
  }

  /** A kept start is followed by the walk from its end. */
  lemma KeptStep(w: Window, reserved: set<string>, s: int)
    requires w.step > 0 && !OverlapsRest(w, s) && s + w.step <= w.end
    requires SecondsToTime(s) !in reserved
    ensures FreeStarts(w, reserved, s) == [s] + FreeStarts(w, reserved, s + w.step)
  {
    assert Advance(w, s) == s + w.step;
  }

  /** A start that touches the rest window is dropped and the cursor jumps
      to the rest end. */
  lemma SkippedStep(w: Window, reserved: set<string>, s: int)
    requires w.step > 0 && w.restStart <= w.restEnd && s + w.step <= w.end
    requires s < w.restEnd && s + w.step > w.restStart
    ensures FreeStarts(w, reserved, s) == FreeStarts(w, reserved, w.restEnd)
  {
    assert OverlapsRest(w, s);
    assert Advance(w, s) == w.restEnd;
  }

  /** A start whose slot would end past the work end ends the walk, and
      both grids are empty from there. */
  lemma MorningEnds(w: Window, s: int)
    requires w.step > 0 && w.restStart <= w.restEnd && s < w.restEnd && s + w.step > w.end
    ensures FreeStarts(w, {}, s) == [] == Grid(s, Min(w.restStart, w.end), w.step) + Grid(w.restEnd, w.end, w.step)
  {
  }

  /** A start whose slot touches the rest window leads straight to the
      afternoon grid. */
  lemma MorningSkips(w: Window, s: int)
    requires w.step > 0 && w.restStart <= w.restEnd && s < w.restEnd
    requires w.restStart < s + w.step <= w.end
    ensures FreeStarts(w, {}, s) == Grid(s, Min(w.restStart, w.end), w.step) + Grid(w.restEnd, w.end, w.step)
  {
    SkippedStep(w, {}, s);
    Afternoon(w, w.restEnd);
    assert Grid(s, Min(w.restStart, w.end), w.step) == [];
  }

  /** A walk that reaches a rest window of no length carries on as the
      afternoon grid. */
  lemma MorningAtRest(w: Window, e: int)
    requires w.step > 0 && e == w.restStart == w.restEnd
    ensures FreeStarts(w, {}, e) == Grid(e, Min(w.restStart, w.end), w.step) + Grid(w.restEnd, w.end, w.step)
  {
    Afternoon(w, e);
    assert Grid(e, Min(w.restStart, w.end), w.step) == [];
  }

  /** A start whose slot ends by the rest start is kept in front of the
      walk from its end. */
  lemma MorningKeeps(w: Window, s: int)
    requires w.step > 0 && w.restStart <= w.restEnd
    requires s + w.step <= w.restStart && s + w.step <= w.end
    requires FreeStarts(w, {}, s + w.step)
      == Grid(s + w.step, Min(w.restStart, w.end), w.step) + Grid(w.restEnd, w.end, w.step)
    ensures FreeStarts(w, {}, s) == Grid(s, Min(w.restStart, w.end), w.step) + Grid(w.restEnd, w.end, w.step)
  {
    KeptStep(w, {}, s);
    var morning := Grid(s + w.step, Min(w.restStart, w.end), w.step);
    var afternoon := Grid(w.restEnd, w.end, w.step);
    assert Grid(s, Min(w.restStart, w.end), w.step) == [s] + morning;
    assert [s] + (morning + afternoon) == ([s] + morning) + afternoon;
  }

  /** Before the rest end, the walk keeps the grid up to the rest start and
      then the grid from the rest end. */
  lemma {:induction false} Morning(w: Window, s: int)
    requires w.step > 0 && w.restStart <= w.restEnd && s < w.restEnd
    ensures FreeStarts(w, {}, s) == Grid(s, Min(w.restStart, w.end), w.step) + Grid(w.restEnd, w.end, w.step)
    decreases w.end - s
  {
    var e := s + w.step;
    if e > w.end {
      MorningEnds(w, s);
    } else if e <= w.restStart {
      if e < w.restEnd {
        Morning(w, e);
      } else {
        MorningAtRest(w, e);
      }
      MorningKeeps(w, s);
    } else {
      MorningSkips(w, s);
    }
  }

  function Min(a: int, b: int): int { if a <= b then a else b }

  /** An independent description of the walk without reservations: the
      grid before the rest window followed by the grid after it. */
  lemma Reference(w: Window)
    requires w.step > 0 && w.restStart <= w.restEnd
    ensures FreeStarts(w, {}, w.start) ==
      if w.start >= w.restEnd then Grid(w.start, w.end, w.step)
      else Grid(w.start, Min(w.restStart, w.end), w.step) + Grid(w.restEnd, w.end, w.step)
  {
    if w.start >= w.restEnd {
      Afternoon(w, w.start);
    } else {
      Morning(w, w.start);
    }
  }

  /** 09:00 to 17:00 with rest 13:00 to 14:00 in 30-minute steps: eight
      morning slots 09:00 ... 12:30 (the one ending at 13:00 included) and
      six afternoon slots 14:00 ... 16:30. */
  lemma WorkedExample()
    ensures var w := Window(9 * 3600, 17 * 3600, 13 * 3600, 14 * 3600, 30 * 60);
      var xs := FreeStarts(w, {}, w.start);
      |xs| == 14
      && (forall i :: 0 <= i < 8 ==> xs[i] == 9 * 3600 + i * 1800)
      && (forall i :: 8 <= i < 14 ==> xs[i] == 14 * 3600 + (i - 8) * 1800)
  {
    var w := Window(9 * 3600, 17 * 3600, 13 * 3600, 14 * 3600, 30 * 60);
    Reference(w);
    GridShape(9 * 3600, 13 * 3600, 1800);
    GridShape(14 * 3600, 17 * 3600, 1800);
  }
}
