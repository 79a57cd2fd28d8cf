/** Grouped at-risk statistics:
    `df.groupby(key)['pred_at_risk_flag'].agg(['sum', 'count'])` and its percentage column. */
module Cohorts {
  import opened Students
  import opened Wrappers

  /** One output row of the aggregation: the key, the summed flags and the row count. */
  datatype Group<K> = Group(key: K, sum: int, count: nat)

  /** Number of rows whose key is `k`. */
  function CountKey<K(==)>(rows: seq<Row>, key: Row -> K, k: K): nat
  {
    if |rows| == 0 then 0
    else CountKey(rows[..|rows| - 1], key, k) + (if key(rows[|rows| - 1]) == k then 1 else 0)
  }

  /** Sum of the at-risk flags of the rows whose key is `k`. */
  function SumKey<K(==)>(rows: seq<Row>, key: Row -> K, k: K): int
  {
    if |rows| == 0 then 0
    else SumKey(rows[..|rows| - 1], key, k) + (if key(rows[|rows| - 1]) == k then rows[|rows| - 1].predAtRiskFlag else 0)
  }

  /** Sum of all at-risk flags. */
  function FlagSum(rows: seq<Row>): int
  {
    if |rows| == 0 then 0 else FlagSum(rows[..|rows| - 1]) + rows[|rows| - 1].predAtRiskFlag
  }

  function TotalCount<K>(gs: seq<Group<K>>): int
  {
    if |gs| == 0 then 0 else gs[0].count + TotalCount(gs[1..])
  }

  function TotalSum<K>(gs: seq<Group<K>>): int
  {
    if |gs| == 0 then 0 else gs[0].sum + TotalSum(gs[1..])
  }

  function Keys<K>(gs: seq<Group<K>>): set<K>
  {
    set g | g in gs :: g.key
  }

  predicate DistinctKeys<K(==)>(gs: seq<Group<K>>)
  {
    forall i, j :: 0 <= i < j < |gs| ==> gs[i].key != gs[j].key
  }

  /** The count recorded for key `k`, 0 when there is no group for it. */
  function CountFor<K(==)>(gs: seq<Group<K>>, k: K): nat
  {
    if |gs| == 0 then 0 else if gs[0].key == k then gs[0].count else CountFor(gs[1..], k)
  }

  /** The sum recorded for key `k`, 0 when there is no group for it. */
  function SumFor<K(==)>(gs: seq<Group<K>>, k: K): int
  {
    if |gs| == 0 then 0 else if gs[0].key == k then gs[0].sum else SumFor(gs[1..], k)
  }

  /** What accounting for one more row with key `k` and flag `flag` must yield. */
  ghost predicate AddSpec<K(!new)>(gs: seq<Group<K>>, k: K, flag: int, r: seq<Group<K>>)
  {
    && DistinctKeys(r)
    && Keys(r) == Keys(gs) + {k}
    && (forall k' :: CountFor(r, k') == CountFor(gs, k') + (if k' == k then 1 else 0))
    && (forall k' :: SumFor(r, k') == SumFor(gs, k') + (if k' == k then flag else 0))
    && ((forall g | g in gs :: g.count >= 1) ==> forall g | g in r :: g.count >= 1)
    && TotalCount(r) == TotalCount(gs) + 1
    && TotalSum(r) == TotalSum(gs) + flag
  }

  /** Accounts for one more row with key `k` and flag `flag`. */
  function AddRow<K(==,!new)>(gs: seq<Group<K>>, k: K, flag: int): (r: seq<Group<K>>)
    requires DistinctKeys(gs)
    ensures AddSpec(gs, k, flag, r)
  {
    if |gs| == 0 then
      AddFirst(k, flag);
      [Group(k, flag, 1)]
    else if gs[0].key == k then
      AddBump(gs, k, flag);
      [Group(k, gs[0].sum + flag, gs[0].count + 1)] + gs[1..]
    else
      var u := AddRow(gs[1..], k, flag);
      AddSkip(gs, k, flag, u);
      [gs[0]] + u
  }

  lemma AddFirst<K(!new)>(k: K, flag: int)
    ensures AddSpec([], k, flag, [Group(k, flag, 1)])
  {
    var r := [Group(k, flag, 1)];
    ConsFacts(Group(k, flag, 1), []);
    assert r[1..] == [];
    forall k' ensures SumFor(r, k') == SumFor([], k') + (if k' == k then flag else 0) {
    }
    forall k' ensures CountFor(r, k') == CountFor([], k') + (if k' == k then 1 else 0) {
    }
  }

  lemma ConsFacts<K>(g: Group<K>, t: seq<Group<K>>)
    ensures ([g] + t)[0] == g && ([g] + t)[1..] == t
    ensures Keys([g] + t) == {g.key} + Keys(t)
    ensures TotalCount([g] + t) == g.count + TotalCount(t)
    ensures TotalSum([g] + t) == g.sum + TotalSum(t)
  {
    assert ([g] + t)[1..] == t;
    assert forall h | h in [g] + t :: h == g || h in t;
  }

  lemma HeadKeyFresh<K>(gs: seq<Group<K>>)
    requires DistinctKeys(gs) && |gs| > 0
    ensures gs[0].key !in Keys(gs[1..])
  {
    forall h | h in gs[1..]
      ensures h.key != gs[0].key
    {
      var i :| 0 <= i < |gs[1..]| && gs[1..][i] == h;
      assert gs[i + 1] == h;
    }
  }

  lemma AddBump<K(!new)>(gs: seq<Group<K>>, k: K, flag: int)
    requires DistinctKeys(gs) && |gs| > 0 && gs[0].key == k
    ensures AddSpec(gs, k, flag, [Group(k, gs[0].sum + flag, gs[0].count + 1)] + gs[1..])
  {
    var g := Group(k, gs[0].sum + flag, gs[0].count + 1);
    assert gs == [gs[0]] + gs[1..];
    ConsFacts(g, gs[1..]);
    ConsFacts(gs[0], gs[1..]);
  }

  lemma AddSkip<K(!new)>(gs: seq<Group<K>>, k: K, flag: int, u: seq<Group<K>>)
    requires DistinctKeys(gs) && |gs| > 0 && gs[0].key != k
    requires AddSpec(gs[1..], k, flag, u)
    ensures AddSpec(gs, k, flag, [gs[0]] + u)
  {
    assert gs == [gs[0]] + gs[1..];
    ConsFacts(gs[0], gs[1..]);
    ConsFacts(gs[0], u);
    HeadKeyFresh(gs);
    var r := [gs[0]] + u;
    forall k' ensures SumFor(r, k') == SumFor(gs, k') + (if k' == k then flag else 0) {
    }
    forall k' ensures CountFor(r, k') == CountFor(gs, k') + (if k' == k then 1 else 0) {
    }
    forall i, j | 0 <= i < j < |r|
      ensures r[i].key != r[j].key
    {
      if i == 0 {
        assert r[j] in u;
      } else {
        assert r[i] == u[i - 1] && r[j] == u[j - 1];
      }
    }
  }

  /** Distinct keys make the looked-up count and sum those of the group itself. */
  lemma {:induction false} LookupAt<K>(gs: seq<Group<K>>, i: int)
    requires DistinctKeys(gs) && 0 <= i < |gs|
    ensures CountFor(gs, gs[i].key) == gs[i].count && SumFor(gs, gs[i].key) == gs[i].sum
  {
    if i > 0 {
      assert gs[0].key != gs[i].key;
      assert gs[1..][i - 1] == gs[i];
      LookupAt(gs[1..], i - 1);
    }
  }

  /** What the grouping of `rows` must yield. */
  ghost predicate GroupsSpec<K(!new)>(rows: seq<Row>, key: Row -> K, r: seq<Group<K>>)
  {
    && DistinctKeys(r)
    && Keys(r) == KeysOf(rows, key)
    && (forall k' :: CountFor(r, k') == CountKey(rows, key, k') && SumFor(r, k') == SumKey(rows, key, k'))
    && (forall g | g in r :: g.count >= 1)
    && TotalCount(r) == |rows|
    && TotalSum(r) == FlagSum(rows)
  }

  /** One group per key value present, carrying that key's at-risk sum and row count;
      the counts add up to the number of rows and the sums to the number of flags. */
  function Groups<K(==,!new)>(rows: seq<Row>, key: Row -> K): (r: seq<Group<K>>)
    ensures DistinctKeys(r)
    ensures Keys(r) == KeysOf(rows, key)
    ensures forall k' :: CountFor(r, k') == CountKey(rows, key, k') && SumFor(r, k') == SumKey(rows, key, k')
    ensures forall g | g in r :: g.count >= 1
    ensures TotalCount(r) == |rows|
    ensures TotalSum(r) == FlagSum(rows)
  {
    if |rows| == 0 then []
    else
      var last := rows[|rows| - 1];
      var prev := Groups(rows[..|rows| - 1], key);
      GroupsStep(rows, key, prev);
      AddRow(prev, key(last), last.predAtRiskFlag)
  }

  lemma GroupsStep<K(!new)>(rows: seq<Row>, key: Row -> K, prev: seq<Group<K>>)
    requires |rows| > 0 && GroupsSpec(rows[..|rows| - 1], key, prev)
    ensures GroupsSpec(rows, key, AddRow(prev, key(rows[|rows| - 1]), rows[|rows| - 1].predAtRiskFlag))
  {
    var last := rows[|rows| - 1];
    var init := rows[..|rows| - 1];
    assert rows == init + [last];
    assert KeysOf(rows, key) == KeysOf(init, key) + {key(last)};
    var r := AddRow(prev, key(last), last.predAtRiskFlag);
    forall k'
      ensures CountFor(r, k') == CountKey(rows, key, k') && SumFor(r, k') == SumKey(rows, key, k')
    {
    }
  }

  /** Each emitted group's figures, read off the input rows. */
  lemma GroupFigures<K(!new)>(rows: seq<Row>, key: Row -> K)
    ensures forall i | 0 <= i < |Groups(rows, key)| ::
      Groups(rows, key)[i].count == CountKey(rows, key, Groups(rows, key)[i].key)
      && Groups(rows, key)[i].sum == SumKey(rows, key, Groups(rows, key)[i].key)
  {
    var r := Groups(rows, key);
    forall i | 0 <= i < |r|
      ensures r[i].count == CountKey(rows, key, r[i].key) && r[i].sum == SumKey(rows, key, r[i].key)
    {
      LookupAt(r, i);
    }
  }

  /** The percentage column, `sum / count * 100`; an empty group has no defined rate. */
  function Rate<K>(g: Group<K>): (r: Option<real>)
    ensures r.None? <==> g.count == 0
    ensures r.Some? ==> r.value * g.count as real == 100.0 * g.sum as real
    ensures r.Some? && 0 <= g.sum <= g.count ==> 0.0 <= r.value <= 100.0
  {
    if g.count == 0 then None else Some(g.sum as real / g.count as real * 100.0)
  }

  lemma {:induction false} SumKeyBounded<K>(rows: seq<Row>, key: Row -> K, k: K)
    requires FlagsBinary(rows)
    ensures 0 <= SumKey(rows, key, k) <= CountKey(rows, key, k)
  {
    if |rows| > 0 {
      assert rows[|rows| - 1] in rows;
      SumKeyBounded(rows[..|rows| - 1], key, k);
    }
  }

  lemma {:induction false} FlagSumBounded(rows: seq<Row>)
    requires FlagsBinary(rows)
    ensures 0 <= FlagSum(rows) <= |rows|
  {
    if |rows| > 0 {
      assert rows[|rows| - 1] in rows;
      FlagSumBounded(rows[..|rows| - 1]);
    }
  }

  /** With 0/1 flags every group's sum lies between 0 and its count, so every
      percentage is defined and lies in [0, 100]. */
  lemma GroupRatesBounded<K(!new)>(rows: seq<Row>, key: Row -> K)
    requires FlagsBinary(rows)
    ensures forall g | g in Groups(rows, key) :: 0 <= g.sum <= g.count
    ensures forall g | g in Groups(rows, key) :: Rate(g).Some? && 0.0 <= Rate(g).value <= 100.0
    ensures 0 <= TotalSum(Groups(rows, key)) <= |rows|
  {
    var r := Groups(rows, key);
    FlagSumBounded(rows);
    forall g | g in r
      ensures 0 <= g.sum <= g.count
    {
      var i :| 0 <= i < |r| && r[i] == g;
      LookupAt(r, i);
      SumKeyBounded(rows, key, g.key);
    }
  }
}
