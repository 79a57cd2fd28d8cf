/** The recommendation engine: five threshold checks, each appending one fixed
    advisor action, evaluated in a fixed order. */
module Recommendations {
  import opened Students
  import Seqs

  const Tutoring := "Schedule tutoring for core courses"
  const AttendanceWarning := "Send attendance warning"
  const Mentor := "Assign mentor for assignment completion"
  const CourseAdvice := "Advise on course selection strategy"
  const ProbationTalk := "Discuss probation status with advisor"

  /** The five actions in the order the checks run. */
  const Actions: seq<string> := [Tutoring, AttendanceWarning, Mentor, CourseAdvice, ProbationTalk]

  /** Position of an action in `Actions` (5 for anything else). */
  function Rank(m: string): nat
  {
    if m == Tutoring then 0
    else if m == AttendanceWarning then 1
    else if m == Mentor then 2
    else if m == CourseAdvice then 3
    else if m == ProbationTalk then 4
    else 5
  }

  /** The advisor actions for one student, as listed on the at-risk page and
      joined line by line into the notification e-mail. */
  function Recommend(s: Row): (r: seq<string>)
    ensures Tutoring in r <==> s.cumGpa < 2.5
    ensures AttendanceWarning in r <==> s.attendanceRate < 80.0
    ensures Mentor in r <==> s.assignmentsOnTimePct < 75.0
    ensures CourseAdvice in r <==> s.courseDropCount > 0
    ensures ProbationTalk in r <==> s.probationFlag == 1
    ensures forall m | m in r :: m in Actions
    ensures forall i, j :: 0 <= i < j < |r| ==> Rank(r[i]) < Rank(r[j])
    ensures |r| <= 5
    ensures |r| == 0 <==>
      !(s.cumGpa < 2.5 || s.attendanceRate < 80.0 || s.assignmentsOnTimePct < 75.0
        || s.courseDropCount > 0 || s.probationFlag == 1)
  {
    AppendedMembership(s);
    AppendedOrder(s);
    Appended(s)
  }

  /** The five checks in source order, each appending its action when it fires. */
  function Appended(s: Row): seq<string>
  {
    var r1: seq<string> := if s.cumGpa < 2.5 then [Tutoring] else [];
    var r2 := if s.attendanceRate < 80.0 then r1 + [AttendanceWarning] else r1;
    var r3 := if s.assignmentsOnTimePct < 75.0 then r2 + [Mentor] else r2;
    var r4 := if s.courseDropCount > 0 then r3 + [CourseAdvice] else r3;
    if s.probationFlag == 1 then r4 + [ProbationTalk] else r4
  }

  lemma AppendedMembership(s: Row)
    ensures Tutoring in Appended(s) <==> s.cumGpa < 2.5
    ensures AttendanceWarning in Appended(s) <==> s.attendanceRate < 80.0
    ensures Mentor in Appended(s) <==> s.assignmentsOnTimePct < 75.0
    ensures CourseAdvice in Appended(s) <==> s.courseDropCount > 0
    ensures ProbationTalk in Appended(s) <==> s.probationFlag == 1
    ensures forall m | m in Appended(s) :: m in Actions
  {
  }

  lemma AppendedOrder(s: Row)
    ensures forall i, j :: 0 <= i < j < |Appended(s)| ==> Rank(Appended(s)[i]) < Rank(Appended(s)[j])
    ensures |Appended(s)| <= 5
    ensures |Appended(s)| == 0 <==>
      !(s.cumGpa < 2.5 || s.attendanceRate < 80.0 || s.assignmentsOnTimePct < 75.0
        || s.courseDropCount > 0 || s.probationFlag == 1)
  {
  }

  /** No action is advised twice. */
  lemma RecommendDistinct(s: Row)
    ensures forall i, j :: 0 <= i < j < |Recommend(s)| ==> Recommend(s)[i] != Recommend(s)[j]
  {
  }

  /** Reference reading of the rule, one check per kind of action. */
  datatype Check = GpaCheck | AttendanceCheck | AssignmentCheck | DropCheck | ProbationCheck
  {
    /** Whether this check fires for student `s`. */
    predicate Fires(s: Row)
    {
      match this
      case GpaCheck => s.cumGpa < 2.5
      case AttendanceCheck => s.attendanceRate < 80.0
      case AssignmentCheck => s.assignmentsOnTimePct < 75.0
      case DropCheck => s.courseDropCount > 0
      case ProbationCheck => s.probationFlag == 1
    }

    /** The action this check advises. */
    function Message(): string
    {
      match this
      case GpaCheck => Tutoring
      case AttendanceCheck => AttendanceWarning
      case AssignmentCheck => Mentor
      case DropCheck => CourseAdvice
      case ProbationCheck => ProbationTalk
    }
  }

  const Checks: seq<Check> := [GpaCheck, AttendanceCheck, AssignmentCheck, DropCheck, ProbationCheck]

  /** The message of each check, in check order. */
  function Messages(cs: seq<Check>): (r: seq<string>)
    ensures |r| == |cs|
    ensures forall i | 0 <= i < |cs| :: r[i] == cs[i].Message()
  {
    if |cs| == 0 then [] else [cs[0].Message()] + Messages(cs[1..])
  }

  /** The engine's output is the messages of the checks that fire, in check order. */
  lemma RecommendIsSelection(s: Row)
    ensures Recommend(s) == Messages(Seqs.Filter(Checks, (c: Check) => c.Fires(s)))
  {
    SelectionShape(s, (c: Check) => c.Fires(s));
    RecommendShape(s);
    assert Recommend(s) == Appended(s);
    Associate(Messages(Picked(s, GpaCheck)), Messages(Picked(s, AttendanceCheck)),
      Messages(Picked(s, AssignmentCheck)), Messages(Picked(s, DropCheck)), Messages(Picked(s, ProbationCheck)));
  }

  lemma Associate(m1: seq<string>, m2: seq<string>, m3: seq<string>, m4: seq<string>, m5: seq<string>)
    ensures m1 + m2 + m3 + m4 + m5 == m1 + (m2 + (m3 + (m4 + m5)))
  {
    assert m1 + m2 + m3 + m4 + m5 == (m1 + m2 + m3) + (m4 + m5);
    assert (m1 + m2 + m3) + (m4 + m5) == (m1 + m2) + (m3 + (m4 + m5));
  }

  lemma SelectionShape(s: Row, p: Check -> bool)
    requires forall c :: p(c) == c.Fires(s)
    ensures Messages(Seqs.Filter(Checks, p)) == Messages(Picked(s, GpaCheck)) + (Messages(Picked(s, AttendanceCheck))
      + (Messages(Picked(s, AssignmentCheck)) + (Messages(Picked(s, DropCheck)) + Messages(Picked(s, ProbationCheck)))))
  {
    FilterChecks(s, p);
    MessagesAppend(Picked(s, GpaCheck), Picked(s, AttendanceCheck) + (Picked(s, AssignmentCheck) + (Picked(s, DropCheck) + Picked(s, ProbationCheck))));
    MessagesAppend(Picked(s, AttendanceCheck), Picked(s, AssignmentCheck) + (Picked(s, DropCheck) + Picked(s, ProbationCheck)));
    MessagesAppend(Picked(s, AssignmentCheck), Picked(s, DropCheck) + Picked(s, ProbationCheck));
    MessagesAppend(Picked(s, DropCheck), Picked(s, ProbationCheck));
  }

  /** The engine's output as the concatenation of its five optional messages. */
  lemma RecommendShape(s: Row)
    ensures Appended(s) == Messages(Picked(s, GpaCheck)) + Messages(Picked(s, AttendanceCheck))
      + Messages(Picked(s, AssignmentCheck)) + Messages(Picked(s, DropCheck)) + Messages(Picked(s, ProbationCheck))
  {
    MessagesPicked(s, GpaCheck);
    MessagesPicked(s, AttendanceCheck);
    MessagesPicked(s, AssignmentCheck);
    MessagesPicked(s, DropCheck);
    MessagesPicked(s, ProbationCheck);
  }

  lemma MessagesPicked(s: Row, c: Check)
    ensures Messages(Picked(s, c)) == if c.Fires(s) then [c.Message()] else []
  {
    if c.Fires(s) {
      assert Picked(s, c)[1..] == [];
    }
  }

  /** Filtering the checks leaves those that fire, in check order. */
  lemma FilterChecks(s: Row, p: Check -> bool)
    requires forall c :: p(c) == c.Fires(s)
    ensures Seqs.Filter(Checks, p) == Picked(s, GpaCheck) + (Picked(s, AttendanceCheck)
      + (Picked(s, AssignmentCheck) + (Picked(s, DropCheck) + Picked(s, ProbationCheck))))
  {
    var e: seq<Check> := [];
    var t4 := [ProbationCheck] + e;
    var t3 := [DropCheck] + t4;
    var t2 := [AssignmentCheck] + t3;
    var t1 := [AttendanceCheck] + t2;
    assert Checks == [GpaCheck] + t1;
    var f5 := Picked(s, ProbationCheck);
    var f4 := Picked(s, DropCheck) + f5;
    var f3 := Picked(s, AssignmentCheck) + f4;
    var f2 := Picked(s, AttendanceCheck) + f3;
    assert Seqs.Filter(e, p) == [];
    PickStep(s, ProbationCheck, e, p);
    assert Seqs.Filter(t4, p) == f5;
    PickStep(s, DropCheck, t4, p);
    assert Seqs.Filter(t3, p) == f4;
    PickStep(s, AssignmentCheck, t3, p);
    assert Seqs.Filter(t2, p) == f3;
    PickStep(s, AttendanceCheck, t2, p);
    assert Seqs.Filter(t1, p) == f2;
    PickStep(s, GpaCheck, t1, p);
  }

  /** Filtering a leading check contributes that check exactly when it fires. */
  lemma PickStep(s: Row, c: Check, t: seq<Check>, p: Check -> bool)
    requires forall c :: p(c) == c.Fires(s)
    ensures Seqs.Filter([c] + t, p) == Picked(s, c) + Seqs.Filter(t, p)
  {
    Seqs.FilterCons(c, t, p);
  }

  /** The singleton `[c]` when `c` fires, else nothing. */
  function Picked(s: Row, c: Check): seq<Check>
  {
    if c.Fires(s) then [c] else []
  }

  lemma {:induction false} MessagesAppend(a: seq<Check>, b: seq<Check>)
    ensures Messages(a + b) == Messages(a) + Messages(b)
  {
    if |a| == 0 {
      assert a + b == b;
    } else {
      assert (a + b)[1..] == a[1..] + b;
      MessagesAppend(a[1..], b);
    }
  }
}
