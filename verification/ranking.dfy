/** Ordering groups by their at-risk sum and keeping the largest:
    `sort_values('sum').tail(n)` and `sort_values('sum', ascending=False).head(n)`. */
module Ranking {
  import opened Cohorts
  import Seqs

  predicate Ascending<K>(gs: seq<Group<K>>)
  {
    forall i, j :: 0 <= i < j < |gs| ==> gs[i].sum <= gs[j].sum
  }

  predicate Descending<K>(gs: seq<Group<K>>)
  {
    forall i, j :: 0 <= i < j < |gs| ==> gs[i].sum >= gs[j].sum
  }

  function Insert<K>(g: Group<K>, gs: seq<Group<K>>): (r: seq<Group<K>>)
    requires Ascending(gs)
    ensures Ascending(r)
    ensures multiset(r) == multiset(gs) + multiset{g}
    ensures |r| == |gs| + 1
    ensures forall h | h in r :: h in gs || h == g
  {
    if |gs| == 0 then [g]
    else if g.sum <= gs[0].sum then
      ConsAscending(g, gs);
      [g] + gs
    else
      var u := Insert(g, gs[1..]);
      assert gs == [gs[0]] + gs[1..];
      assert forall h | h in u :: gs[0].sum <= h.sum by {
        assert forall h | h in gs[1..] :: gs[0].sum <= h.sum;
      }
      ConsAscending(gs[0], u);
      [gs[0]] + u
  }

  /** A group no larger than any of an ascending sequence can lead it. */
  lemma ConsAscending<K>(x: Group<K>, u: seq<Group<K>>)
    requires Ascending(u)
    requires forall h | h in u :: x.sum <= h.sum
    ensures Ascending([x] + u)
    ensures forall h | h in [x] + u :: h == x || h in u
  {
    var r := [x] + u;
    forall i, j | 0 <= i < j < |r|
      ensures r[i].sum <= r[j].sum
    {
      assert r[j] == u[j - 1];
      if i > 0 {
        assert r[i] == u[i - 1];
      }
    }
  }

  /** The groups rearranged in ascending order of their sum. */
  function SortBySum<K>(gs: seq<Group<K>>): (r: seq<Group<K>>)
    ensures Ascending(r)
    ensures multiset(r) == multiset(gs)
    ensures |r| == |gs|
  {
    if |gs| == 0 then []
    else
      assert gs == [gs[0]] + gs[1..];
      Insert(gs[0], SortBySum(gs[1..]))
  }

  function Min(a: nat, b: nat): nat
  {
    if a <= b then a else b
  }

  /** The `n` groups with the largest sums, in ascending order of sum. */
  function LargestAscending<K>(gs: seq<Group<K>>, n: nat): (r: seq<Group<K>>)
    ensures |r| == Min(n, |gs|)
    ensures Ascending(r)
    ensures multiset(r) <= multiset(gs)
    ensures forall g, h | g in multiset(gs) - multiset(r) && h in r :: g.sum <= h.sum
  {
    var s := SortBySum(gs);
    var m := |s| - Min(n, |s|);
    Split(s, m);
    AscendingSplit(s, m);
    s[m..]
  }

  /** The `n` groups with the largest sums, in descending order of sum. */
  function LargestDescending<K>(gs: seq<Group<K>>, n: nat): (r: seq<Group<K>>)
    ensures |r| == Min(n, |gs|)
    ensures Descending(r)
    ensures multiset(r) <= multiset(gs)
    ensures forall g, h | g in multiset(gs) - multiset(r) && h in r :: g.sum <= h.sum
  {
    var s := Seqs.Reverse(SortBySum(gs));
    var m := Min(n, |s|);
    Split(s, m);
    DescendingSplit(s, m);
    s[..m]
  }

  lemma Split<T>(s: seq<T>, m: int)
    requires 0 <= m <= |s|
    ensures multiset(s) - multiset(s[m..]) == multiset(s[..m])
    ensures multiset(s) - multiset(s[..m]) == multiset(s[m..])
  {
    assert s == s[..m] + s[m..];
  }

  lemma AscendingSplit<K>(s: seq<Group<K>>, m: int)
    requires Ascending(s) && 0 <= m <= |s|
    ensures forall g, h | g in multiset(s[..m]) && h in s[m..] :: g.sum <= h.sum
  {
    forall g, h | g in multiset(s[..m]) && h in s[m..]
      ensures g.sum <= h.sum
    {
      var i :| 0 <= i < m && s[i] == g;
      var j :| 0 <= j < |s[m..]| && s[m..][j] == h;
      assert s[m + j] == h;
    }
  }

  lemma DescendingSplit<K>(s: seq<Group<K>>, m: int)
    requires Descending(s) && 0 <= m <= |s|
    ensures forall g, h | g in multiset(s[m..]) && h in s[..m] :: g.sum <= h.sum
  {
    forall g, h | g in multiset(s[m..]) && h in s[..m]
      ensures g.sum <= h.sum
    {
      var i :| 0 <= i < |s[m..]| && s[m..][i] == g;
      var j :| 0 <= j < m && s[j] == h;
      assert s[m + i] == g;
    }
  }
}
