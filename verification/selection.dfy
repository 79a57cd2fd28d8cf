/** Row selection on the at-risk pages: the alert cut and the advisor's filter chain. */
module Selection {
  import opened Students
  import Seqs

  /** Students strictly above this predicted dropout probability are alerted. */
  const AlertThreshold: real := 0.4

  /** The at-risk page's alert list, taken from the latest-term snapshot. */
  function Alerts(snap: seq<Row>): (r: seq<Row>)
    ensures Seqs.IsSubseq(r, snap)
    ensures forall x :: x in r <==> x in snap && x.predDropoutProbability > AlertThreshold
    ensures forall x :: multiset(r)[x] == if x.predDropoutProbability > AlertThreshold then multiset(snap)[x] else 0
  {
    Seqs.Filter(snap, (x: Row) => x.predDropoutProbability > AlertThreshold)
  }

  /** A row exactly at the threshold is not alerted. */
  lemma ThresholdExcluded(snap: seq<Row>, x: Row)
    requires x.predDropoutProbability == 0.4
    ensures x !in Alerts(snap)
  {
  }

  /** The conjunction of every active filter; an empty major selection imposes nothing. */
  predicate Passes(x: Row, majors: seq<string>, gpaMax: real, attMax: real)
  {
    && (|majors| > 0 ==> x.major in majors)
    && x.cumGpa <= gpaMax
    && x.attendanceRate <= attMax
  }

  /** The at-risk data page's filters, applied one after the other as the page does. */
  function FilterChain(snap: seq<Row>, majors: seq<string>, gpaMax: real, attMax: real): (r: seq<Row>)
    ensures Seqs.IsSubseq(r, snap)
    ensures forall x | x in r :: Passes(x, majors, gpaMax, attMax)
    ensures forall x | x in snap && Passes(x, majors, gpaMax, attMax) :: x in r
    ensures forall x :: multiset(r)[x] == if Passes(x, majors, gpaMax, attMax) then multiset(snap)[x] else 0
  {
    var byMajor := if |majors| > 0 then Seqs.Filter(snap, (x: Row) => x.major in majors) else snap;
    var byGpa := Seqs.Filter(byMajor, (x: Row) => x.cumGpa <= gpaMax);
    var byAttendance := Seqs.Filter(byGpa, (x: Row) => x.attendanceRate <= attMax);
    FilterChainIsConjunction(snap, majors, gpaMax, attMax);
    byAttendance
  }

  /** The chained masks select what the single conjunctive mask selects. */
  lemma FilterChainIsConjunction(snap: seq<Row>, majors: seq<string>, gpaMax: real, attMax: real)
    ensures
      var byMajor := if |majors| > 0 then Seqs.Filter(snap, (x: Row) => x.major in majors) else snap;
      var byGpa := Seqs.Filter(byMajor, (x: Row) => x.cumGpa <= gpaMax);
      Seqs.Filter(byGpa, (x: Row) => x.attendanceRate <= attMax)
        == Seqs.Filter(snap, (x: Row) => Passes(x, majors, gpaMax, attMax))
  {
    var pm := (x: Row) => |majors| > 0 ==> x.major in majors;
    var pg := (x: Row) => x.cumGpa <= gpaMax;
    var pa := (x: Row) => x.attendanceRate <= attMax;
    var pmg := (x: Row) => pm(x) && pg(x);
    var all := (x: Row) => Passes(x, majors, gpaMax, attMax);
    if |majors| > 0 {
      Seqs.FilterExtensional(snap, (x: Row) => x.major in majors, pm);
    } else {
      Seqs.FilterAll(snap, pm);
    }
    Seqs.FilterFuse(snap, pm, pg, pmg);
    Seqs.FilterFuse(snap, pmg, pa, all);
  }

  /** With no major selected and the sliders at or above every row's values, the page
      shows the whole at-risk snapshot. */
  lemma FilterChainIdentity(snap: seq<Row>, gpaMax: real, attMax: real)
    requires forall x | x in snap :: x.cumGpa <= gpaMax && x.attendanceRate <= attMax
    ensures FilterChain(snap, [], gpaMax, attMax) == snap
  {
    FilterChainIsConjunction(snap, [], gpaMax, attMax);
    Seqs.FilterAll(snap, (x: Row) => Passes(x, [], gpaMax, attMax));
  }
}
