/** The snapshot reducer: `df.sort_values('term').groupby('student_id').last()`,
    which keeps one latest-term row per student, ordered by student id. */
module Snapshot {
  import opened Students
  import opened Wrappers
  import StringOrder
  import Seqs

  /** Student ids strictly increase along the sequence, so each student appears once. */
  predicate IdSorted(snap: seq<Row>)
  {
    forall i, j :: 0 <= i < j < |snap| ==> StringOrder.Less(snap[i].studentId, snap[j].studentId)
  }

  /** Every row of `rows` is matched, by student id, by a row of `snap` with a term at least as late. */
  predicate Dominates(snap: seq<Row>, rows: seq<Row>)
  {
    forall x, y | x in rows && y in snap && x.studentId == y.studentId :: x.term <= y.term
  }

  /** An id-sorted snapshot holds at most one row per student. */
  lemma IdSortedUnique(snap: seq<Row>)
    requires IdSorted(snap)
    ensures forall i, j | 0 <= i < |snap| && 0 <= j < |snap| && snap[i].studentId == snap[j].studentId :: i == j
  {
    forall i, j | 0 <= i < |snap| && 0 <= j < |snap| && snap[i].studentId == snap[j].studentId
      ensures i == j
    {
      StringOrder.LessIrreflexive(snap[i].studentId);
    }
  }

  lemma SortedPrepend(x: Row, snap: seq<Row>)
    requires IdSorted(snap) && |snap| > 0
    requires StringOrder.Less(x.studentId, snap[0].studentId)
    ensures IdSorted([x] + snap)
  {
    forall j | 0 < j < |snap|
      ensures StringOrder.Less(x.studentId, snap[j].studentId)
    {
      StringOrder.LessTransitive(x.studentId, snap[0].studentId, snap[j].studentId);
    }
  }

  /** What folding row `x` into snapshot `snap` must yield. */
  predicate UpsertSpec(snap: seq<Row>, x: Row, r: seq<Row>)
  {
    && IdSorted(r)
    && Ids(r) == Ids(snap) + {x.studentId}
    && (forall y | y in r :: y in snap || y == x)
    && Dominates(r, snap + [x])
  }

  /** Folds one more row into a snapshot: a new student is inserted at its place in
      id order; a known student's row is replaced when the new row's term is later. */
  function Upsert(snap: seq<Row>, x: Row): (r: seq<Row>)
    requires IdSorted(snap)
    ensures UpsertSpec(snap, x, r)
    decreases |snap|
  {
    if |snap| == 0 then [x]
    else if snap[0].studentId == x.studentId then
      UpsertSame(snap, x);
      if snap[0].term < x.term then [x] + snap[1..] else snap
    else if StringOrder.Less(x.studentId, snap[0].studentId) then
      UpsertBefore(snap, x);
      [x] + snap
    else
      var u := Upsert(snap[1..], x);
      UpsertAfter(snap, x, u);
      [snap[0]] + u
  }

  lemma UpsertSame(snap: seq<Row>, x: Row)
    requires IdSorted(snap) && |snap| > 0 && snap[0].studentId == x.studentId
    ensures UpsertSpec(snap, x, if snap[0].term < x.term then [x] + snap[1..] else snap)
  {
    IdSortedUnique(snap);
    assert snap == [snap[0]] + snap[1..];
  }

  lemma UpsertBefore(snap: seq<Row>, x: Row)
    requires IdSorted(snap) && |snap| > 0 && StringOrder.Less(x.studentId, snap[0].studentId)
    ensures UpsertSpec(snap, x, [x] + snap)
  {
    SortedPrepend(x, snap);
    IdSortedUnique(snap);
    forall z | z in snap
      ensures z.studentId != x.studentId
    {
      var k :| 0 <= k < |snap| && snap[k] == z;
      assert ([x] + snap)[0] == x && ([x] + snap)[k + 1] == z;
      StringOrder.LessIrreflexive(x.studentId);
    }
  }

  lemma UpsertAfter(snap: seq<Row>, x: Row, u: seq<Row>)
    requires IdSorted(snap) && |snap| > 0 && snap[0].studentId != x.studentId
    requires !StringOrder.Less(x.studentId, snap[0].studentId)
    requires UpsertSpec(snap[1..], x, u)
    ensures UpsertSpec(snap, x, [snap[0]] + u)
  {
    AfterIds(snap, x, u);
    AfterSorted(snap, x, u);
    AfterDominates(snap, x, u);
    assert forall y | y in [snap[0]] + u :: y == snap[0] || y in u;
  }

  lemma AfterIds(snap: seq<Row>, x: Row, u: seq<Row>)
    requires |snap| > 0 && Ids(u) == Ids(snap[1..]) + {x.studentId}
    ensures Ids([snap[0]] + u) == Ids(snap) + {x.studentId}
  {
    assert snap == [snap[0]] + snap[1..];
    IdsCons(snap[0], snap[1..]);
    IdsCons(snap[0], u);
  }

  lemma AfterSorted(snap: seq<Row>, x: Row, u: seq<Row>)
    requires IdSorted(snap) && |snap| > 0 && snap[0].studentId != x.studentId
    requires !StringOrder.Less(x.studentId, snap[0].studentId)
    requires IdSorted(u) && forall y | y in u :: y in snap[1..] || y == x
    ensures IdSorted([snap[0]] + u)
  {
    StringOrder.LessTotal(x.studentId, snap[0].studentId);
    forall y | y in u
      ensures StringOrder.Less(snap[0].studentId, y.studentId)
    {
      if y != x {
        var k :| 0 <= k < |snap[1..]| && snap[1..][k] == y;
        assert snap[k + 1] == y;
      }
    }
  }

  lemma AfterDominates(snap: seq<Row>, x: Row, u: seq<Row>)
    requires IdSorted(snap) && |snap| > 0 && snap[0].studentId != x.studentId
    requires forall y | y in u :: y in snap[1..] || y == x
    requires Dominates(u, snap[1..] + [x])
    ensures Dominates([snap[0]] + u, snap + [x])
  {
    HeadIdFresh(snap);
    assert snap + [x] == [snap[0]] + (snap[1..] + [x]);
    forall z, y | z in snap + [x] && y in [snap[0]] + u && z.studentId == y.studentId
      ensures z.term <= y.term
    {
      if z != snap[0] {
        assert z in snap[1..] + [x];
      }
    }
  }

  /** The first row's student occurs nowhere else in an id-sorted snapshot. */
  lemma HeadIdFresh(snap: seq<Row>)
    requires IdSorted(snap) && |snap| > 0
    ensures forall w | w in snap[1..] :: w.studentId != snap[0].studentId
  {
    forall w | w in snap[1..]
      ensures w.studentId != snap[0].studentId
    {
      var k :| 0 <= k < |snap[1..]| && snap[1..][k] == w;
      assert snap[k + 1] == w;
      StringOrder.LessIrreflexive(w.studentId);
    }
  }

  /** The latest-term row of every student, in student-id order. */
  function Latest(rows: seq<Row>): (r: seq<Row>)
    ensures IdSorted(r)
    ensures Ids(r) == Ids(rows)
    ensures forall y | y in r :: y in rows
    ensures Dominates(r, rows)
  {
    if |rows| == 0 then []
    else
      var rest := Latest(rows[1..]);
      var r := Upsert(rest, rows[0]);
      LatestStep(rows, rest, r);
      r
  }

  lemma LatestStep(rows: seq<Row>, rest: seq<Row>, r: seq<Row>)
    requires |rows| > 0
    requires Ids(rest) == Ids(rows[1..]) && Dominates(rest, rows[1..])
    requires forall y | y in rest :: y in rows[1..]
    requires UpsertSpec(rest, rows[0], r)
    ensures Ids(r) == Ids(rows)
    ensures forall y | y in r :: y in rows
    ensures Dominates(r, rows)
  {
    assert rows == [rows[0]] + rows[1..];
    IdsCons(rows[0], rows[1..]);
    forall z, y | z in rows && y in r && z.studentId == y.studentId
      ensures z.term <= y.term
    {
      if z != rows[0] {
        assert z in rows[1..];
        assert z.studentId in Ids(rest);
        var w :| w in rest && w.studentId == z.studentId;
        assert w in rest + [rows[0]];
      } else {
        assert z in rest + [rows[0]];
      }
    }
  }

  /** Distinct students in a snapshot: its length is the number of students in the input. */
  lemma {:induction false} LatestCount(rows: seq<Row>)
    ensures |Latest(rows)| == |Ids(rows)|
  {
    SortedCount(Latest(rows));
  }

  lemma {:induction false} SortedCount(snap: seq<Row>)
    requires IdSorted(snap)
    ensures |Ids(snap)| == |snap|
  {
    if |snap| > 0 {
      assert snap == [snap[0]] + snap[1..];
      IdsCons(snap[0], snap[1..]);
      HeadIdFresh(snap);
      SortedCount(snap[1..]);
    }
  }

  /** The row with the latest term in `s`, or `None` when `s` is empty. */
  function LastByTerm(s: seq<Row>): (r: Option<Row>)
    ensures r.None? <==> |s| == 0
    ensures r.Some? ==> r.value in s && forall x | x in s :: x.term <= r.value.term
  {
    if |s| == 0 then None
    else
      var rest := LastByTerm(s[1..]);
      if rest.Some? && s[0].term <= rest.value.term then rest else Some(s[0])
  }

  /** The student search: the latest-term row of one student; `None` when no row has
      this id (the page shows "No record found" for a non-empty id). */
  function SearchLatest(rows: seq<Row>, id: string): (r: Option<Row>)
    ensures r.None? <==> id !in Ids(rows)
    ensures r.Some? ==> r.value in rows && r.value.studentId == id
    ensures r.Some? ==> forall x | x in rows && x.studentId == id :: x.term <= r.value.term
  {
    LastByTerm(Seqs.Filter(rows, (x: Row) => x.studentId == id))
  }

  /** The search page and the snapshot agree on whether a student exists and on the
      latest term (not necessarily on the row when two rows share that term). */
  lemma SearchAgreesWithLatest(rows: seq<Row>, id: string)
    ensures SearchLatest(rows, id).Some? <==> id in Ids(Latest(rows))
    ensures forall y | y in Latest(rows) && y.studentId == id :: SearchLatest(rows, id).Some? && SearchLatest(rows, id).value.term == y.term
  {
  }

  /** The at-risk data page: flagged rows only, then one latest flagged row per student. */
  function AtRiskLatest(rows: seq<Row>): (r: seq<Row>)
    ensures IdSorted(r)
    ensures Ids(r) == set x | x in rows && x.predAtRiskFlag == 1 :: x.studentId
    ensures forall y | y in r :: y in rows && y.predAtRiskFlag == 1
    ensures forall x, y | x in rows && x.predAtRiskFlag == 1 && y in r && x.studentId == y.studentId :: x.term <= y.term
  {
    var flagged := Seqs.Filter(rows, (x: Row) => x.predAtRiskFlag == 1);
    FlaggedRows(rows, flagged);
    Latest(flagged)
  }

  lemma FlaggedRows(rows: seq<Row>, flagged: seq<Row>)
    requires forall x :: x in flagged <==> x in rows && x.predAtRiskFlag == 1
    ensures Ids(flagged) == set x | x in rows && x.predAtRiskFlag == 1 :: x.studentId
  {
  }
}
