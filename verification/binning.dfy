/** Fixed-edge binning as `pd.cut` does it: bin `i` holds the values `v` with
    `edges[i] < v <= edges[i+1]` (right-closed); `include_lowest` also admits
    `v == edges[0]` into the first bin; values outside every bin are dropped. */
module Binning {
  import opened Wrappers

  /** The bin edges strictly increase (pandas rejects other edge lists). */
  predicate Increasing(edges: seq<real>)
  {
    |edges| >= 2 && forall i, j :: 0 <= i < j < |edges| ==> edges[i] < edges[j]
  }

  predicate InBin(edges: seq<real>, lowest: bool, i: int, v: real)
    requires 0 <= i < |edges| - 1
  {
    (edges[i] < v || (lowest && i == 0 && v == edges[0])) && v <= edges[i + 1]
  }

  predicate InRange(edges: seq<real>, lowest: bool, v: real)
    requires |edges| > 0
  {
    (edges[0] < v || (lowest && v == edges[0])) && v <= edges[|edges| - 1]
  }

  /** The first bin at or after `i` whose upper edge reaches `v`. */
  function FirstReaching(edges: seq<real>, v: real, i: nat): (r: nat)
    requires Increasing(edges) && i < |edges| - 1 && v <= edges[|edges| - 1]
    ensures i <= r < |edges| - 1 && v <= edges[r + 1]
    ensures forall j | i < j <= r :: edges[j] < v
    decreases |edges| - i
  {
    if v <= edges[i + 1] then i else FirstReaching(edges, v, i + 1)
  }

  /** The bin `v` falls in, `None` when it falls in none (pandas yields NaN). */
  function BinOf(edges: seq<real>, lowest: bool, v: real): (r: Option<nat>)
    requires Increasing(edges)
    ensures r.Some? <==> InRange(edges, lowest, v)
    ensures r.Some? ==> r.value < |edges| - 1 && InBin(edges, lowest, r.value, v)
    ensures forall i | 0 <= i < |edges| - 1 && InBin(edges, lowest, i, v) :: r == Some(i)
  {
    if InRange(edges, lowest, v) then
      var b := FirstReaching(edges, v, 0);
      assert b > 0 ==> edges[b] < v;
      Some(b)
    else None
  }

  /** A value falls in at most one bin. */
  lemma BinUnique(edges: seq<real>, lowest: bool, v: real, i: int, j: int)
    requires Increasing(edges) && 0 <= i < |edges| - 1 && 0 <= j < |edges| - 1
    requires InBin(edges, lowest, i, v) && InBin(edges, lowest, j, v)
    ensures i == j
  {
    var b := BinOf(edges, lowest, v);
  }

  /** Total weight of the elements whose value falls in bin `i`. */
  function WeightIn<T>(edges: seq<real>, lowest: bool, i: int, xs: seq<T>, value: T -> real, weight: T -> int): int
    requires 0 <= i < |edges| - 1
  {
    if |xs| == 0 then 0
    else
      var x := xs[|xs| - 1];
      WeightIn(edges, lowest, i, xs[..|xs| - 1], value, weight) + (if InBin(edges, lowest, i, value(x)) then weight(x) else 0)
  }

  /** Total weight of the elements whose value falls in some bin. */
  function WeightInRange<T>(edges: seq<real>, lowest: bool, xs: seq<T>, value: T -> real, weight: T -> int): int
    requires |edges| > 0
  {
    if |xs| == 0 then 0
    else
      var x := xs[|xs| - 1];
      WeightInRange(edges, lowest, xs[..|xs| - 1], value, weight) + (if InRange(edges, lowest, value(x)) then weight(x) else 0)
  }

  function Total(s: seq<int>): int
  {
    if |s| == 0 then 0 else s[0] + Total(s[1..])
  }

  lemma {:induction false} TotalZeros(n: nat)
    ensures Total(seq(n, _ => 0)) == 0
  {
    if n > 0 {
      assert seq(n, _ => 0)[1..] == seq(n - 1, _ => 0);
      TotalZeros(n - 1);
    }
  }

  lemma {:induction false} TotalBump(s: seq<int>, i: int, d: int)
    requires 0 <= i < |s|
    ensures Total(s[i := s[i] + d]) == Total(s) + d
  {
    if i > 0 {
      assert s[i := s[i] + d][1..] == s[1..][i - 1 := s[i] + d];
      TotalBump(s[1..], i - 1, d);
    }
  }

  /** Per-bin weight totals in bin order: `pd.cut(...)` followed by a per-bin sum. */
  function Tally<T>(edges: seq<real>, lowest: bool, xs: seq<T>, value: T -> real, weight: T -> int): (r: seq<int>)
    requires Increasing(edges)
    ensures |r| == |edges| - 1
    ensures forall i | 0 <= i < |r| :: r[i] == WeightIn(edges, lowest, i, xs, value, weight)
    ensures Total(r) == WeightInRange(edges, lowest, xs, value, weight)
  {
    if |xs| == 0 then
      TotalZeros(|edges| - 1);
      seq(|edges| - 1, _ => 0)
    else
      var prev := Tally(edges, lowest, xs[..|xs| - 1], value, weight);
      var x := xs[|xs| - 1];
      match BinOf(edges, lowest, value(x))
      case None => prev
      case Some(b) =>
        TotalBump(prev, b, weight(x));
        prev[b := prev[b] + weight(x)]
  }

  function One<T>(x: T): int
  {
    1
  }

  /** Counting is tallying with unit weights: counts are non-negative and add up to at
      most the number of elements, exactly when every value falls in some bin. */
  lemma {:induction false} CountsBounded<T>(edges: seq<real>, lowest: bool, xs: seq<T>, value: T -> real)
    requires Increasing(edges)
    ensures forall i | 0 <= i < |edges| - 1 :: WeightIn(edges, lowest, i, xs, value, One) >= 0
    ensures 0 <= WeightInRange(edges, lowest, xs, value, One) <= |xs|
    ensures (forall x | x in xs :: InRange(edges, lowest, value(x))) ==> WeightInRange(edges, lowest, xs, value, One) == |xs|
  {
    if |xs| > 0 {
      var init := xs[..|xs| - 1];
      CountsBounded(edges, lowest, init, value);
      assert forall x | x in init :: x in xs;
    }
  }
}
