// `groupby(key)["player_points"].sum()`: one group per distinct present key
// (missing keys form no group), each group's total the sum of its rows.
module Grouping {
  import opened Cells

  predicate NoDuplicates<T(==)>(s: seq<T>)
  {
    forall i, j | 0 <= i < j < |s| :: s[i] != s[j]
  }

  function Sum(s: seq<real>): real
    decreases |s|
  {
    if s == [] then 0.0 else Sum(s[..|s| - 1]) + s[|s| - 1]
  }

  /** The number of entries of s strictly greater than v. */
  function CountAbove(s: seq<real>, v: real): nat
    decreases |s|
  {
    if s == [] then 0 else CountAbove(s[..|s| - 1], v) + (if s[|s| - 1] > v then 1 else 0)
  }

  /** The groups of a key column, in order of first appearance; a missing key
      (NaN) forms no group, as in pandas' default `dropna=True`. */
  function GroupKeys(keys: seq<Cell>): (r: seq<Cell>)
    ensures forall k :: k in r <==> k in keys && k != Missing
    ensures NoDuplicates(r)
    decreases |keys|
  {
    if keys == [] then []
    else
      var init := GroupKeys(keys[..|keys| - 1]);
      var last := keys[|keys| - 1];
      assert forall k :: k in keys <==> k in keys[..|keys| - 1] || k == last;
      if last == Missing || last in init then init else init + [last]
  }

  /** The sum of the points of the rows whose key is k. */
  function GroupSum(keys: seq<Cell>, points: seq<real>, k: Cell): real
    requires |keys| == |points|
    decreases |keys|
  {
    if keys == [] then 0.0
    else
      GroupSum(keys[..|keys| - 1], points[..|points| - 1], k)
      + (if keys[|keys| - 1] == k then points[|points| - 1] else 0.0)
  }

  /** The sum of the points of the rows whose key is present. */
  function SumPresent(keys: seq<Cell>, points: seq<real>): real
    requires |keys| == |points|
    decreases |keys|
  {
    if keys == [] then 0.0
    else
      SumPresent(keys[..|keys| - 1], points[..|points| - 1])
      + (if keys[|keys| - 1] != Missing then points[|points| - 1] else 0.0)
  }

  /** The total of each listed group. */
  function GroupTotals(groups: seq<Cell>, keys: seq<Cell>, points: seq<real>): (r: seq<real>)
    requires |keys| == |points|
    ensures |r| == |groups|
    ensures forall j | 0 <= j < |groups| :: r[j] == GroupSum(keys, points, groups[j])
    decreases |groups|
  {
    if groups == [] then []
    else GroupTotals(groups[..|groups| - 1], keys, points) + [GroupSum(keys, points, groups[|groups| - 1])]
  }

  lemma SumAppend(s: seq<real>, x: real)
    ensures Sum(s + [x]) == Sum(s) + x
  {
    assert (s + [x])[..|s|] == s;
  }

  lemma CountAboveAppend(s: seq<real>, x: real, v: real)
    ensures CountAbove(s + [x], v) == CountAbove(s, v) + (if x > v then 1 else 0)
  {
    assert (s + [x])[..|s|] == s;
  }

  lemma {:induction false} GroupSumAbsent(keys: seq<Cell>, points: seq<real>, k: Cell)
    requires |keys| == |points| && k !in keys
    ensures GroupSum(keys, points, k) == 0.0
    decreases |keys|
  {
    if keys != [] {
      assert keys[..|keys| - 1] + [keys[|keys| - 1]] == keys;
      GroupSumAbsent(keys[..|keys| - 1], points[..|points| - 1], k);
    }
  }

  lemma GroupSumAppendRow(keys: seq<Cell>, points: seq<real>, x: Cell, p: real, g: Cell)
    requires |keys| == |points|
    ensures GroupSum(keys + [x], points + [p], g) == GroupSum(keys, points, g) + (if x == g then p else 0.0)
  {
    assert (keys + [x])[..|keys|] == keys && (points + [p])[..|points|] == points;
  }

  /** Appending one row (key x, points p) adds p to the sum of the group
      totals exactly when x is one of the groups. */
  lemma {:induction false} GroupTotalsAppendRow(groups: seq<Cell>, keys: seq<Cell>, points: seq<real>, x: Cell, p: real)
    requires |keys| == |points| && NoDuplicates(groups)
    ensures Sum(GroupTotals(groups, keys + [x], points + [p]))
         == Sum(GroupTotals(groups, keys, points)) + (if x in groups then p else 0.0)
    decreases |groups|
  {
    if groups != [] {
      var init, g := groups[..|groups| - 1], groups[|groups| - 1];
      assert groups == init + [g];
      GroupTotalsAppendRow(init, keys, points, x, p);
      GroupSumAppendRow(keys, points, x, p, g);
      var after := GroupTotals(init, keys + [x], points + [p]);
      var before := GroupTotals(init, keys, points);
      assert GroupTotals(groups, keys + [x], points + [p]) == after + [GroupSum(keys + [x], points + [p], g)];
      assert GroupTotals(groups, keys, points) == before + [GroupSum(keys, points, g)];
      SumAppend(after, GroupSum(keys + [x], points + [p], g));
      SumAppend(before, GroupSum(keys, points, g));
      assert x in groups <==> x in init || x == g;
      assert x == g ==> x !in init;
    }
  }

  /** The group totals add up to the points of all rows whose key is present:
      grouping loses only the rows with a missing key. */
  lemma {:induction false} GroupTotalsConserve(keys: seq<Cell>, points: seq<real>)
    requires |keys| == |points|
    ensures Sum(GroupTotals(GroupKeys(keys), keys, points)) == SumPresent(keys, points)
    decreases |keys|
  {
    if keys != [] {
      var ks, x := keys[..|keys| - 1], keys[|keys| - 1];
      var ps, p := points[..|points| - 1], points[|points| - 1];
      assert keys == ks + [x] && points == ps + [p];
      GroupTotalsConserve(ks, ps);
      var before := GroupKeys(ks);
      GroupTotalsAppendRow(before, ks, ps, x, p);
      if x != Missing && x !in before {
        assert GroupKeys(keys) == before + [x];
        GroupSumAbsent(ks, ps, x);
        assert GroupTotals(before + [x], keys, points)
            == GroupTotals(before, keys, points) + [GroupSum(keys, points, x)];
        SumAppend(GroupTotals(before, keys, points), GroupSum(keys, points, x));
      }
    }
  }

  lemma {:induction false} SumPresentAll(keys: seq<Cell>, points: seq<real>)
    requires |keys| == |points|
    requires forall k | 0 <= k < |keys| :: keys[k] != Missing
    ensures SumPresent(keys, points) == Sum(points)
    decreases |keys|
  {
    if keys != [] {
      SumPresentAll(keys[..|keys| - 1], points[..|points| - 1]);
    }
  }
}
