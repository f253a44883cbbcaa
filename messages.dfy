/** The texts errors carry between the service, the database driver and the
    controller, and what can be shown about the words they contain. The
    two long Spanish messages are written as two literals joined. */
module Messages {
  import opened Js

  const OutOfHours := "Cita fuera del rango de horas " + "de la disponibilidad fija."
  const RestOverlap := "La cita interfiere con el " + "período de descanso programado."
  const SlotAlreadyBooked := "SLOT_ALREADY_BOOKED"
  const AppointmentNotFound := "Appointment not found"
  const InvalidDate := "Invalid date format provided."

  /** The phrase `handleServiceError` looks for. */
  const NotFound := "not found"

  const FkHead := "Cannot add or update a child row:"
  const FkTail := " a foreign key constraint fails "

  /** MySQL's refusal of a row whose foreign key `column` names no parent,
      reduced to the clause that names the column. */
  function FkSqlMessage(column: string): string
  {
    FkHead + FkTail + "(FOREIGN KEY (`" + column + "`))"
  }

  /** MySQL's refusal to delete a row other rows still reference. */
  const RefSqlMessage := "Cannot delete or update a parent row:" + FkTail

  /** No `x` in `s` is directly followed by `y`. */
  predicate NoPair(s: string, x: char, y: char)
  {
    forall i :: 0 <= i < |s| - 1 ==> !(s[i] == x && s[i + 1] == y)
  }

  lemma NoPairConcat(a: string, b: string, x: char, y: char)
    requires NoPair(a, x, y) && NoPair(b, x, y)
    requires a == [] || b == [] || !(a[|a| - 1] == x && b[0] == y)
    ensures NoPair(a + b, x, y)
  {
    var s := a + b;
    forall i | 0 <= i < |s| - 1
      ensures !(s[i] == x && s[i + 1] == y)
    {
      if i + 1 < |a| {
        assert s[i] == a[i] && s[i + 1] == a[i + 1];
      } else if i + 1 == |a| {
        assert s[i] == a[|a| - 1] && s[i + 1] == b[0];
      } else {
        assert s[i] == b[i - |a|] && s[i + 1] == b[i + 1 - |a|];
      }
    }
  }

  /** A word holding two letters that never meet in `s` is not in `s`. */
  lemma PairNotIncluded(s: string, t: string, j: int)
    requires 0 <= j < |t| - 1 && NoPair(s, t[j], t[j + 1])
    ensures !Includes(s, t)
  {
    IncludesIff(s, t);
    forall i
      ensures !OccursAt(s, t, i)
    {
      if 0 <= i && i + |t| <= |s| {
        assert s[i..i + |t|][j] == s[i + j] && s[i..i + |t|][j + 1] == s[i + j + 1];
      }
    }
  }

  /** A word with a letter `s` lacks is not in `s`. */
  lemma CharNotIncluded(s: string, t: string, k: int)
    requires 0 <= k < |t| && t[k] !in s
    ensures !Includes(s, t)
  {
    IncludesIff(s, t);
    forall i
      ensures !OccursAt(s, t, i)
    {
      if 0 <= i && i + |t| <= |s| {
        assert s[i..i + |t|][k] == s[i + k];
        assert s[i + k] in s;
      }
    }
  }

  lemma OutOfHoursLacksNo()
    ensures NoPair(OutOfHours, 'n', 'o')
  {
    var a, b := "Cita fuera del rango de horas ", "de la disponibilidad fija.";
    assert NoPair(a, 'n', 'o');
    assert NoPair(b, 'n', 'o');
    NoPairConcat(a, b, 'n', 'o');
  }

  lemma RestOverlapLacksNo()
    ensures NoPair(RestOverlap, 'n', 'o')
  {
    var c, d := "La cita interfiere con el ", "período de descanso programado.";
    assert NoPair(c, 'n', 'o');
    assert NoPair(d, 'n', 'o');
    NoPairConcat(c, d, 'n', 'o');
  }

  lemma InvalidDateLacksNo()
    ensures NoPair(InvalidDate, 'n', 'o')
  {
  }

  lemma BookedLacksN()
    ensures 'n' !in SlotAlreadyBooked
  {
  }

  /** The slot-integrity rejections, the invalid-date error and the
      booking code do not say "not found". */
  lemma RejectionsLackNotFound()
    ensures !Includes(OutOfHours, NotFound) && !Includes(RestOverlap, NotFound)
    ensures !Includes(InvalidDate, NotFound) && !Includes(SlotAlreadyBooked, NotFound)
  {
    OutOfHoursLacksNo();
    PairNotIncluded(OutOfHours, NotFound, 0);
    RestOverlapLacksNo();
    PairNotIncluded(RestOverlap, NotFound, 0);
    InvalidDateLacksNo();
    PairNotIncluded(InvalidDate, NotFound, 0);
    BookedLacksN();
    CharNotIncluded(SlotAlreadyBooked, NotFound, 0);
  }

  /** A message built as `a + " not found." ` says it. */
  lemma SaysNotFound(a: string)
    ensures Includes(a + " not found.", NotFound)
  {
    assert a + " not found." == (a + " ") + NotFound + ".";
    IncludesInfix(a + " ", NotFound, ".");
  }

  lemma AppointmentNotFoundSays()
    ensures Includes(AppointmentNotFound, NotFound)
  {
    assert AppointmentNotFound == "Appointment " + NotFound + "";
    IncludesInfix("Appointment ", NotFound, "");
  }

  lemma FkHeadLacks()
    ensures NoPair(FkHead, 'o', 'u') && NoPair(FkHead, 'd', 'o') && 'b' !in FkHead
  {
    FkHeadLacksOu();
    FkHeadLacksDo();
  }

  lemma FkHeadLacksOu()
    ensures NoPair(FkHead, 'o', 'u')
  {
  }

  lemma FkHeadLacksDo()
    ensures NoPair(FkHead, 'd', 'o')
  {
  }

  lemma FkTailLacks()
    ensures NoPair(FkTail, 'o', 'u') && NoPair(FkTail, 'd', 'o') && 'b' !in FkTail
  {
    FkTailLacksOu();
    FkTailLacksDo();
  }

  lemma FkTailLacksOu()
    ensures NoPair(FkTail, 'o', 'u')
  {
  }

  lemma FkTailLacksDo()
    ensures NoPair(FkTail, 'd', 'o')
  {
  }

  /** The fixed part of the foreign-key refusal: no "ou", no "do", no 'b'. */
  lemma FkFixedTextLacks()
    ensures var f := FkHead + FkTail + "(FOREIGN KEY (`";
      NoPair(f, 'o', 'u') && NoPair(f, 'd', 'o') && 'b' !in f
  {
    var k := "(FOREIGN KEY (`";
    FkHeadLacks();
    FkTailLacks();
    assert NoPair(k, 'o', 'u') && NoPair(k, 'd', 'o') && 'b' !in k;
    NoPairConcat(FkHead, FkTail, 'o', 'u');
    NoPairConcat(FkHead + FkTail, k, 'o', 'u');
    NoPairConcat(FkHead, FkTail, 'd', 'o');
    NoPairConcat(FkHead + FkTail, k, 'd', 'o');
  }

  /** The refusal for one of the appointment's three foreign keys names
      that column and never says "not found", which needs the pair "ou". */
  lemma FkMessageNamesColumn(col: string)
    requires col in {"availability_id", "doctor_id", "patient_id"}
    ensures !Includes(FkSqlMessage(col), NotFound)
    ensures Includes(FkSqlMessage(col), col)
  {
    var f := FkHead + FkTail + "(FOREIGN KEY (`";
    var m := FkSqlMessage(col);
    FkFixedTextLacks();
    assert m == f + col + "`))";
    assert NoPair(col, 'o', 'u') && NoPair("`))", 'o', 'u');
    NoPairConcat(f, col, 'o', 'u');
    NoPairConcat(f + col, "`))", 'o', 'u');
    PairNotIncluded(m, NotFound, 5);
    IncludesInfix(f, col, "`))");
  }

  /** Only the refusal for `availability_id` names that column: the others
      have no 'b'. */
  lemma FkMessageLacksAvailability(col: string)
    requires col in {"doctor_id", "patient_id"}
    ensures !Includes(FkSqlMessage(col), "availability_id")
  {
    var f := FkHead + FkTail + "(FOREIGN KEY (`";
    var m := FkSqlMessage(col);
    FkFixedTextLacks();
    assert m == f + (col + "`))");
    assert 'b' !in col + "`))";
    assert 'b' !in m;
    CharNotIncluded(m, "availability_id", 6);
  }

  /** The refusal for `patient_id` does not name `doctor_id`: it has no
      'd' followed by an 'o'. */
  lemma PatientFkLacksDoctor()
    ensures !Includes(FkSqlMessage("patient_id"), "doctor_id")
  {
    var f := FkHead + FkTail + "(FOREIGN KEY (`";
    var m := FkSqlMessage("patient_id");
    FkFixedTextLacks();
    assert m == f + "patient_id" + "`))";
    assert NoPair("patient_id", 'd', 'o') && NoPair("`))", 'd', 'o');
    NoPairConcat(f, "patient_id", 'd', 'o');
    NoPairConcat(f + "patient_id", "`))", 'd', 'o');
    PairNotIncluded(m, "doctor_id", 0);
  }

  /** None of the other rejections is the booking code. */
  lemma RejectionsAreNotBooked()
    ensures OutOfHours != SlotAlreadyBooked && RestOverlap != SlotAlreadyBooked
    ensures InvalidDate != SlotAlreadyBooked
  {
    assert |SlotAlreadyBooked| < |InvalidDate| < |OutOfHours|;
    assert |OutOfHours| < |RestOverlap|;
  }
}
