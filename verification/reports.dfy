/** The analytics page's cohort reports over the latest-term snapshot: grouped
    at-risk rates per categorical column and binned distributions per continuous one. */
module Reports {
  import opened Students
  import opened Cohorts
  import opened Ranking
  import opened Binning

  function Major(x: Row): string { x.major }
  function Residence(x: Row): string { x.residence }
  function Ethnicity(x: Row): string { x.ethnicity }
  function FinancialAid(x: Row): int { x.financialAidFlag }
  function LateRegistration(x: Row): int { x.lateRegistration }
  function Attendance(x: Row): real { x.attendanceRate }
  function DropoutProbability(x: Row): real { x.predDropoutProbability }
  function WorkHours(x: Row): real { x.workHoursPerWeek }
  function Balance(x: Row): real { x.outstandingBalance }
  function Age(x: Row): real { x.age }
  function AtRiskFlag(x: Row): int { x.predAtRiskFlag }

  /** A group of the report describes its key's rows: how many there are and their flag sum. */
  predicate Describes<K(==)>(g: Group<K>, snap: seq<Row>, key: Row -> K)
  {
    g.count >= 1 && g.count == CountKey(snap, key, g.key) && g.sum == SumKey(snap, key, g.key)
  }

  lemma {:induction false} GroupsDescribe<K(!new)>(snap: seq<Row>, key: Row -> K)
    ensures forall g | g in Groups(snap, key) :: Describes(g, snap, key)
  {
    var r := Groups(snap, key);
    forall g | g in r
      ensures Describes(g, snap, key)
    {
      var i :| 0 <= i < |r| && r[i] == g;
      LookupAt(r, i);
    }
  }

  /** At-risk students by major: the ten majors with the most at-risk students,
      in ascending order of that number. */
  function RiskByMajor(snap: seq<Row>): (r: seq<Group<string>>)
    ensures |r| == Min(10, |Groups(snap, Major)|)
    ensures Ascending(r)
    ensures multiset(r) <= multiset(Groups(snap, Major))
    ensures forall g | g in r :: Describes(g, snap, Major)
    ensures forall g, h | g in multiset(Groups(snap, Major)) - multiset(r) && h in r :: g.sum <= h.sum
  {
    var all := Groups(snap, Major);
    GroupsDescribe(snap, Major);
    var r := LargestAscending(all, 10);
    assert forall g | g in r :: g in multiset(all);
    r
  }

  /** At-risk students by financial-aid status, one group per flag value. */
  function RiskByFinancialAid(snap: seq<Row>): (r: seq<Group<int>>)
    ensures Keys(r) == KeysOf(snap, FinancialAid) && DistinctKeys(r)
    ensures forall g | g in r :: Describes(g, snap, FinancialAid)
    ensures TotalCount(r) == |snap| && TotalSum(r) == FlagSum(snap)
  {
    GroupsDescribe(snap, FinancialAid);
    Groups(snap, FinancialAid)
  }

  /** At-risk percentage by residence type, one group per residence value. */
  function RiskByResidence(snap: seq<Row>): (r: seq<Group<string>>)
    ensures Keys(r) == KeysOf(snap, Residence) && DistinctKeys(r)
    ensures forall g | g in r :: Describes(g, snap, Residence)
    ensures TotalCount(r) == |snap| && TotalSum(r) == FlagSum(snap)
  {
    GroupsDescribe(snap, Residence);
    Groups(snap, Residence)
  }

  /** At-risk students by registration timing, one group per flag value. */
  function RiskByLateRegistration(snap: seq<Row>): (r: seq<Group<int>>)
    ensures Keys(r) == KeysOf(snap, LateRegistration) && DistinctKeys(r)
    ensures forall g | g in r :: Describes(g, snap, LateRegistration)
    ensures TotalCount(r) == |snap| && TotalSum(r) == FlagSum(snap)
  {
    GroupsDescribe(snap, LateRegistration);
    Groups(snap, LateRegistration)
  }

  /** At-risk students by ethnicity: the eight ethnicities with the most at-risk
      students, in descending order of that number. */
  function RiskByEthnicity(snap: seq<Row>): (r: seq<Group<string>>)
    ensures |r| == Min(8, |Groups(snap, Ethnicity)|)
    ensures Descending(r)
    ensures multiset(r) <= multiset(Groups(snap, Ethnicity))
    ensures forall g | g in r :: Describes(g, snap, Ethnicity)
    ensures forall g, h | g in multiset(Groups(snap, Ethnicity)) - multiset(r) && h in r :: g.sum <= h.sum
  {
    var all := Groups(snap, Ethnicity);
    GroupsDescribe(snap, Ethnicity);
    var r := LargestDescending(all, 8);
    assert forall g | g in r :: g in multiset(all);
    r
  }

  const AttendanceEdges: seq<real> := [0.0, 60.0, 70.0, 80.0, 90.0, 100.0]
  const AttendanceLabels: seq<string> := ["<60%", "60-70%", "70-80%", "80-90%", "90-100%"]
  const RiskLevelEdges: seq<real> := [0.0, 0.25, 0.5, 0.75, 1.0]
  const RiskLevelLabels: seq<string> := ["Low (0-25%)", "Medium (25-50%)", "High (50-75%)", "Very High (75-100%)"]
  const WorkHoursEdges: seq<real> := [-1.0, 0.0, 10.0, 20.0, 30.0, 100.0]
  const WorkHoursLabels: seq<string> := ["Not Working", "1-10 hrs", "11-20 hrs", "21-30 hrs", "30+ hrs"]
  const BalanceEdges: seq<real> := [-1.0, 0.0, 1000.0, 5000.0, 10000.0, 100000.0]
  const BalanceLabels: seq<string> := ["No Balance", "$1-1K", "$1K-5K", "$5K-10K", "$10K+"]
  const AgeEdges: seq<real> := [0.0, 20.0, 25.0, 30.0, 35.0, 100.0]
  const AgeLabels: seq<string> := ["Under 20", "20-25", "26-30", "31-35", "35+"]

  /** Number of rows whose `value` lies in bin `i` of `edges` under right-closed cutting. */
  function CountInBin(edges: seq<real>, i: int, snap: seq<Row>, value: Row -> real): int
    requires 0 <= i < |edges| - 1
  {
    WeightIn(edges, false, i, snap, value, One)
  }

  /** The histogram of one continuous column, one count per bin in bin order. */
  function Distribution(edges: seq<real>, snap: seq<Row>, value: Row -> real): (r: seq<int>)
    requires Increasing(edges)
    ensures |r| == |edges| - 1
    ensures forall i | 0 <= i < |r| :: 0 <= r[i] == CountInBin(edges, i, snap, value)
    ensures 0 <= Total(r) <= |snap|
  {
    CountsBounded(edges, false, snap, value);
    Tally(edges, false, snap, value, One)
  }

  /** Students by attendance range: a value `v` counts in range `i` iff
      `AttendanceEdges[i] < v <= AttendanceEdges[i+1]`. */
  function AttendanceBins(snap: seq<Row>): (r: seq<int>)
    ensures |r| == |AttendanceLabels|
    ensures forall i | 0 <= i < |r| :: 0 <= r[i] == CountInBin(AttendanceEdges, i, snap, Attendance)
    ensures 0 <= Total(r) <= |snap|
  {
    Distribution(AttendanceEdges, snap, Attendance)
  }

  /** Students by dropout-risk level (the pie chart's slices before ordering by size). */
  function RiskLevelBins(snap: seq<Row>): (r: seq<int>)
    ensures |r| == |RiskLevelLabels|
    ensures forall i | 0 <= i < |r| :: 0 <= r[i] == CountInBin(RiskLevelEdges, i, snap, DropoutProbability)
    ensures 0 <= Total(r) <= |snap|
  {
    Distribution(RiskLevelEdges, snap, DropoutProbability)
  }

  /** Students by weekly work hours. */
  function WorkHoursBins(snap: seq<Row>): (r: seq<int>)
    ensures |r| == |WorkHoursLabels|
    ensures forall i | 0 <= i < |r| :: 0 <= r[i] == CountInBin(WorkHoursEdges, i, snap, WorkHours)
    ensures 0 <= Total(r) <= |snap|
  {
    Distribution(WorkHoursEdges, snap, WorkHours)
  }

  /** Students by outstanding balance. */
  function BalanceBins(snap: seq<Row>): (r: seq<int>)
    ensures |r| == |BalanceLabels|
    ensures forall i | 0 <= i < |r| :: 0 <= r[i] == CountInBin(BalanceEdges, i, snap, Balance)
    ensures 0 <= Total(r) <= |snap|
  {
    Distribution(BalanceEdges, snap, Balance)
  }

  /** Builds the per-band groups from the labels, flag sums and counts, band by band. */
  function Bands(labels: seq<string>, sums: seq<int>, counts: seq<int>): (r: seq<Group<string>>)
    requires |labels| == |sums| == |counts|
    requires forall i | 0 <= i < |counts| :: counts[i] >= 0
    ensures |r| == |labels|
    ensures forall i | 0 <= i < |r| :: r[i] == Group(labels[i], sums[i], counts[i])
    ensures TotalCount(r) == Total(counts)
  {
    if |labels| == 0 then []
    else [Group(labels[0], sums[0], counts[0])] + Bands(labels[1..], sums[1..], counts[1..])
  }

  /** At-risk percentage by age group: every age band is reported, in band order,
      including empty ones (whose rate is undefined); ages outside the bands are dropped. */
  function AgeBandRisk(snap: seq<Row>): (r: seq<Group<string>>)
    ensures |r| == |AgeLabels|
    ensures forall i | 0 <= i < |r| ::
      && r[i].key == AgeLabels[i]
      && r[i].count == CountInBin(AgeEdges, i, snap, Age)
      && r[i].sum == WeightIn(AgeEdges, false, i, snap, Age, AtRiskFlag)
    ensures TotalCount(r) <= |snap|
  {
    CountsBounded(AgeEdges, false, snap, Age);
    var counts := Tally(AgeEdges, false, snap, Age, One);
    var sums := Tally(AgeEdges, false, snap, Age, AtRiskFlag);
    Bands(AgeLabels, sums, counts)
  }

  /** As written, a student with exactly 0% attendance falls in no attendance range:
      the left edge of the "<60%" range is open. */
  lemma ZeroAttendanceDropped(x: Row)
    requires x.attendanceRate == 0.0
    ensures AttendanceBins([x]) == [0, 0, 0, 0, 0]
  {
    var r := AttendanceBins([x]);
    assert [x][..0] == [];
    forall i | 0 <= i < 5
      ensures r[i] == 0
    {
      assert !InBin(AttendanceEdges, false, i, x.attendanceRate);
    }
  }

  /** The attendance ranges with the first range closed on the left (`include_lowest`):
      every attendance rate from 0 to 100 is counted in exactly one range. */
  function AttendanceBinsInclusive(snap: seq<Row>): (r: seq<int>)
    ensures |r| == |AttendanceLabels|
    ensures forall i | 0 <= i < |r| :: r[i] == WeightIn(AttendanceEdges, true, i, snap, Attendance, One)
    ensures (forall x | x in snap :: 0.0 <= x.attendanceRate <= 100.0) ==> Total(r) == |snap|
  {
    CountsBounded(AttendanceEdges, true, snap, Attendance);
    Tally(AttendanceEdges, true, snap, Attendance, One)
  }

  /** As written, a student with a predicted dropout probability of exactly 0 falls in
      no risk level: the left edge of "Low (0-25%)" is open. */
  lemma ZeroProbabilityDropped(x: Row)
    requires x.predDropoutProbability == 0.0
    ensures RiskLevelBins([x]) == [0, 0, 0, 0]
  {
    var r := RiskLevelBins([x]);
    assert [x][..0] == [];
    forall i | 0 <= i < 4
      ensures r[i] == 0
    {
      assert !InBin(RiskLevelEdges, false, i, x.predDropoutProbability);
    }
  }

  /** The risk levels with the first level closed on the left (`include_lowest`):
      every probability from 0 to 1 is counted in exactly one level. */
  function RiskLevelBinsInclusive(snap: seq<Row>): (r: seq<int>)
    ensures |r| == |RiskLevelLabels|
    ensures forall i | 0 <= i < |r| :: r[i] == WeightIn(RiskLevelEdges, true, i, snap, DropoutProbability, One)
    ensures (forall x | x in snap :: 0.0 <= x.predDropoutProbability <= 1.0) ==> Total(r) == |snap|
  {
    CountsBounded(RiskLevelEdges, true, snap, DropoutProbability);
    Tally(RiskLevelEdges, true, snap, DropoutProbability, One)
  }
}
