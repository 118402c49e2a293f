/** The shared helpers of the newer scorer (pade/common.py): the elementwise bias
    correction, the display name of a factor assignment and the two-axis sum. */
module PadeCommon {
  import opened Sequences
  import opened BiasCorrection

  /** `adjust_num_diff(V0, R, num_ids)` on one-dimensional V0 and R: a (6 x n)
      work table whose row i holds the i-th iterate for every cell; row 5 is
      returned. */
  method AdjustNumDiffAll(v0: seq<real>, r: seq<real>, numIds: real) returns (result: seq<real>)
    requires |r| == |v0| && numIds != 0.0
    ensures |result| == |v0|
    ensures forall j :: 0 <= j < |v0| ==> result[j] == Adjusted(v0[j], r[j], numIds)
  {
    var n := |v0|;
    var v := new real[6, n]((i, j) => 0.0);
    for i := 0 to 6
      invariant forall k, j :: 0 <= k < i && 0 <= j < n ==> v[k, j] == Iterate(v0[j], r[j], numIds, k)
    {
      IterateRow(v, i, v0, r, numIds);
    }
    result := seq(n, j requires 0 <= j < n reads v => v[5, j]);
  }

  /** `V[0] = V0` for row 0, `V[i] = V[0] - V[0] / num_ids * (R - V[i - 1])` for the
      others, cell by cell; the other rows are left alone. */
  method IterateRow(v: array2<real>, i: nat, v0: seq<real>, r: seq<real>, numIds: real)
    requires v.Length0 == 6 && v.Length1 == |v0| && |r| == |v0| && numIds != 0.0 && i < 6
    requires forall k, j :: 0 <= k < i && 0 <= j < |v0| ==> v[k, j] == Iterate(v0[j], r[j], numIds, k)
    modifies v
    ensures forall j :: 0 <= j < |v0| ==> v[i, j] == Iterate(v0[j], r[j], numIds, i)
    ensures forall k, j :: 0 <= k < 6 && k != i && 0 <= j < |v0| ==> v[k, j] == old(v[k, j])
  {
    for j := 0 to |v0|
      invariant forall j' :: 0 <= j' < j ==> v[i, j'] == Iterate(v0[j'], r[j'], numIds, i)
      invariant forall k, j' :: 0 <= k < 6 && k != i && 0 <= j' < |v0| ==> v[k, j'] == old(v[k, j'])
    {
      if i == 0 {
        v[i, j] := v0[j];
      } else {
        v[i, j] := v[0, j] - v[0, j] / numIds * (r[j] - v[i - 1, j]);
      }
    }
  }

  /** The corrected count of a cell whose null count is zero stays zero, and equal
      counts are a fixed point, cell by cell. */
  lemma AdjustNumDiffAllFixedPoints(v0: seq<real>, r: seq<real>, numIds: real, j: nat)
    requires |r| == |v0| && numIds != 0.0 && j < |v0|
    ensures v0[j] == 0.0 ==> Adjusted(v0[j], r[j], numIds) == 0.0
    ensures r[j] == v0[j] ==> Adjusted(v0[j], r[j], numIds) == v0[j]
  {
    if v0[j] == 0.0 { ZeroNullStaysZero(r[j], numIds, 5); }
    if r[j] == v0[j] { EqualCountsFixed(v0[j], numIds, 5); }
  }

  /** The "k=v" parts of an assignment, in its iteration order. */
  function Parts(a: seq<(string, string)>): (r: seq<string>)
    ensures |r| == |a| && forall i :: 0 <= i < |a| ==> r[i] == a[i].0 + "=" + a[i].1
  {
    seq(|a|, i requires 0 <= i < |a| => a[i].0 + "=" + a[i].1)
  }

  /** `assignment_name(a)`: "intercept" for the empty assignment, otherwise the
      "k=v" parts joined by ", " (values already rendered as text). */
  function AssignmentName(a: seq<(string, string)>): string
  {
    if |a| == 0 then "intercept" else Join(", ", Parts(a))
  }

  lemma AssignmentNameEmpty()
    ensures AssignmentName([]) == "intercept"
  {
  }

  /** A one-entry assignment is named by its single part. */
  lemma AssignmentNameSingle(k: string, v: string)
    ensures AssignmentName([(k, v)]) == k + "=" + v
  {
    assert Parts([(k, v)]) == [k + "=" + v];
  }

  /** Adding an entry to a non-empty assignment appends ", k=v". */
  lemma AssignmentNameAppend(a: seq<(string, string)>, k: string, v: string)
    requires |a| > 0
    ensures AssignmentName(a + [(k, v)]) == AssignmentName(a) + ", " + k + "=" + v
  {
    var p := Parts(a + [(k, v)]);
    assert p[..|p| - 1] == Parts(a);
  }

  /** A non-empty assignment's name contains "=", so it never reads "intercept". */
  lemma AssignmentNameNotIntercept(a: seq<(string, string)>)
    requires |a| > 0
    ensures '=' in AssignmentName(a)
    ensures AssignmentName(a) != "intercept"
  {
    JoinContains(Parts(a));
    assert '=' !in "intercept";
  }

  lemma {:induction false} JoinContains(parts: seq<string>)
    requires |parts| > 0 && forall i :: 0 <= i < |parts| ==> '=' in parts[i]
    ensures '=' in Join(", ", parts)
  {
    if |parts| == 1 {
    } else {
      var last := parts[|parts| - 1];
      var j := Join(", ", parts[..|parts| - 1]) + ", " + last;
      assert Join(", ", parts) == j;
      var k :| 0 <= k < |last| && last[k] == '=';
      assert j[|j| - |last| + k] == '=';
    }
  }

  /** Sum of one 2-D slice over both of its axes. */
  function SliceSum(t: seq<seq<real>>): real
  {
    if |t| == 0 then 0.0 else SliceSum(t[..|t| - 1]) + Sum(t[|t| - 1])
  }

  /** `double_sum(data)` on 3-D data: entry i sums `data[i]` over the last two axes
      (not the first two, as its docstring says). */
  function DoubleSum(data: seq<seq<seq<real>>>): (r: seq<real>)
    ensures |r| == |data|
  {
    seq(|data|, i requires 0 <= i < |data| => SliceSum(data[i]))
  }

  /** Each entry of `double_sum` is the plain sum of its flattened slice. */
  lemma DoubleSumFlattened(data: seq<seq<seq<real>>>, i: nat)
    requires i < |data|
    ensures DoubleSum(data)[i] == Sum(Concat(data[i]))
  {
    SliceSumConcat(data[i]);
  }

  lemma {:induction false} SliceSumConcat(t: seq<seq<real>>)
    ensures SliceSum(t) == Sum(Concat(t))
  {
    if |t| > 0 {
      SliceSumConcat(t[..|t| - 1]);
      SumConcat(Concat(t[..|t| - 1]), t[|t| - 1]);
    }
  }

  /** Non-negative entries give a non-negative two-axis sum. */
  lemma {:induction false} SliceSumNonNegative(t: seq<seq<real>>)
    requires forall i, j :: 0 <= i < |t| && 0 <= j < |t[i]| ==> t[i][j] >= 0.0
    ensures SliceSum(t) >= 0.0
  {
    if |t| > 0 {
      SliceSumNonNegative(t[..|t| - 1]);
      SumNonNegative(t[|t| - 1]);
    }
  }

  lemma {:induction false} SumNonNegative(s: seq<real>)
    requires forall j :: 0 <= j < |s| ==> s[j] >= 0.0
    ensures Sum(s) >= 0.0
  {
    if |s| > 0 { SumNonNegative(s[..|s| - 1]); }
  }
}
