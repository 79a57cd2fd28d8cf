/** One row of the per-term student dataset. */
module Students {

  /** A (student, term) record. Flags are integers as in the CSV (0/1 by convention);
      the continuous fields are compared against constants only. */
  datatype Row = Row(
    studentId: string,
    term: int,
    major: string,
    cumGpa: real,
    attendanceRate: real,
    assignmentsOnTimePct: real,
    courseDropCount: int,
    probationFlag: int,
    predDropoutProbability: real,
    predAtRiskFlag: int,
    residence: string,
    ethnicity: string,
    financialAidFlag: int,
    lateRegistration: int,
    workHoursPerWeek: real,
    outstandingBalance: real,
    age: real)

  /** The distinct values `key` takes on `rows`. */
  function KeysOf<K>(rows: seq<Row>, key: Row -> K): set<K>
  {
    set x | x in rows :: key(x)
  }

  function StudentId(x: Row): string { x.studentId }

  /** The distinct student ids occurring in `rows`: the keys of the grouping by student id. */
  function Ids(rows: seq<Row>): set<string>
  {
    set x | x in rows :: x.studentId
  }

  /** Documents that `Ids` is the grouping-key set for the student-id key. */
  lemma IdsAreKeys(rows: seq<Row>)
    ensures Ids(rows) == KeysOf(rows, StudentId)
  {
    assert forall x | x in rows :: StudentId(x) == x.studentId;
  }

  lemma IdsCons(x: Row, rows: seq<Row>)
    ensures Ids([x] + rows) == {x.studentId} + Ids(rows)
  {
    assert forall y | y in [x] + rows :: y == x || y in rows;
  }

  /** Every predicted at-risk flag is 0 or 1. */
  predicate FlagsBinary(rows: seq<Row>)
  {
    forall x | x in rows :: 0 <= x.predAtRiskFlag <= 1
  }
}
