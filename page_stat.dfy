/** The older statistics module (python/page/stat.py), on one feature's row of
    samples: reshaping by a layout, the per-group mean and residual sum of
    squares, and the F-test over a full and a reduced layout. */
module PageStat {
  import opened Sequences
  import opened Wrappers
  import opened Layout
  import opened FStat
  import PadeCommon
  import PadeStat

  /** What `apply_layout` needs to succeed: a first group to take the
      width from, indexes inside the row, and every group either of that width
      or a single sample (which numpy broadcasts across the width). */
  predicate Applicable(layout: Layout, n: nat)
  {
    |layout| > 0 && Fits(layout, n) &&
    forall i :: 0 <= i < |layout| ==> |layout[i]| == |layout[0]| || |layout[i]| == 1
  }

  /** The slot a group fills: its samples, or its single sample repeated. */
  function Slot(data: seq<real>, g: seq<nat>, width: nat): (r: seq<real>)
    requires |g| == width || |g| == 1
    requires forall k :: 0 <= k < |g| ==> g[k] < |data|
    ensures |r| == width
    ensures forall j :: 0 <= j < width ==> r[j] == data[if |g| == width then g[j] else g[0]]
  {
    if |g| == width then Gather(data, g) else seq(width, j requires 0 <= j < width => data[g[0]])
  }

  /** `apply_layout(layout, data)` on one row: group i becomes row i of a
      (|layout| x |layout[0]|) table; an inapplicable layout raises (None). */
  function Applied(layout: Layout, data: seq<real>): (r: Option<seq<seq<real>>>)
    ensures r.Some? <==> Applicable(layout, |data|)
    ensures r.Some? ==> (|r.value| == |layout| &&
                         forall i :: 0 <= i < |layout| ==> r.value[i] == Slot(data, layout[i], |layout[0]|))
  {
    if !Applicable(layout, |data|) then None
    else Some(seq(|layout|, i requires 0 <= i < |layout| => Slot(data, layout[i], |layout[0]|)))
  }

  /** The loop of `apply_layout`: allocates the table and copies one group per row. */
  method ApplyLayout(layout: Layout, data: seq<real>) returns (ok: bool, res: array2<real>)
    ensures ok <==> Applicable(layout, |data|)
    ensures ok ==> res.Length0 == |layout| && res.Length1 == |layout[0]| &&
                   forall i, j :: 0 <= i < |layout| && 0 <= j < |layout[0]| ==>
                     res[i, j] == Applied(layout, data).value[i][j]
  {
    if |layout| == 0 {
      return false, new real[0, 0];
    }
    var width := |layout[0]|;
    res := new real[|layout|, width]((i, j) => 0.0);
    ok := true;
    var i := 0;
    while i < |layout| && ok
      invariant 0 <= i <= |layout|
      invariant ok ==> forall i' :: 0 <= i' < i ==> GroupApplicable(layout[i'], width, |data|)
      invariant ok ==> forall i', j :: 0 <= i' < i && 0 <= j < width ==>
                         res[i', j] == Slot(data, layout[i'], width)[j]
      invariant !ok ==> 1 <= i && !GroupApplicable(layout[i - 1], width, |data|)
    {
      var g := layout[i];
      if (|g| == width || |g| == 1) && forall k :: 0 <= k < |g| ==> g[k] < |data| {
        WriteSlot(res, i, data, g);
      } else {
        ok := false;
      }
      i := i + 1;
    }
    if ok {
      assert forall i' :: 0 <= i' < |layout| ==> GroupApplicable(layout[i'], width, |data|);
    }
  }

  predicate GroupApplicable(g: seq<nat>, width: nat, n: nat)
  {
    (|g| == width || |g| == 1) && forall k :: 0 <= k < |g| ==> g[k] < n
  }

  /** `res[..., i, :] = data[..., idxs]` for one group; the other rows are left alone. */
  method WriteSlot(res: array2<real>, i: nat, data: seq<real>, g: seq<nat>)
    requires i < res.Length0 && GroupApplicable(g, res.Length1, |data|)
    modifies res
    ensures forall j :: 0 <= j < res.Length1 ==> res[i, j] == Slot(data, g, res.Length1)[j]
    ensures forall i', j :: 0 <= i' < res.Length0 && i' != i && 0 <= j < res.Length1 ==> res[i', j] == old(res[i', j])
  {
    var slot := Slot(data, g, res.Length1);
    for j := 0 to res.Length1
      invariant forall j' :: 0 <= j' < j ==> res[i, j'] == slot[j']
      invariant forall i', j' :: 0 <= i' < res.Length0 && i' != i && 0 <= j' < res.Length1 ==> res[i', j'] == old(res[i', j'])
    {
      res[i, j] := slot[j];
    }
  }

  /** With every group of the same width, the table read row by row is the row
      gathered at the layout's indexes in order. */
  lemma AppliedFlattens(layout: Layout, data: seq<real>)
    requires Applicable(layout, |data|)
    requires forall i :: 0 <= i < |layout| ==> |layout[i]| == |layout[0]|
    ensures ConcatFits(layout, |data|) && Concat(Applied(layout, data).value) == Gather(data, Concat<nat>(layout))
  {
    var rows := Applied(layout, data).value;
    assert forall i :: 0 <= i < |layout| ==> rows[i] == Gather(data, layout[i]);
    GatherConcat(rows, layout, data);
  }

  lemma {:induction false} GatherConcat(rows: seq<seq<real>>, layout: Layout, data: seq<real>)
    requires Fits(layout, |data|) && |rows| == |layout|
    requires forall i :: 0 <= i < |layout| ==> rows[i] == Gather(data, layout[i])
    ensures ConcatFits(layout, |data|) && Concat(rows) == Gather(data, Concat<nat>(layout))
  {
    ConcatFitsFrom(layout, |data|);
    if |layout| > 0 {
      var front, last := layout[..|layout| - 1], layout[|layout| - 1];
      GatherConcat(rows[..|rows| - 1], front, data);
      assert Concat<nat>(layout) == Concat<nat>(front) + last;
      ConcatFitsFrom(front, |data|);
      assert Gather(data, Concat<nat>(layout)) == Gather(data, Concat<nat>(front)) + Gather(data, last);
    }
  }

  predicate ConcatFits(layout: Layout, n: nat)
  {
    var c := Concat<nat>(layout);
    forall k :: 0 <= k < |c| ==> c[k] < n
  }

  lemma {:induction false} ConcatFitsFrom(layout: Layout, n: nat)
    requires Fits(layout, n)
    ensures ConcatFits(layout, n)
  {
    if |layout| > 0 {
      var front := layout[..|layout| - 1];
      assert Fits(front, n) by {
        assert forall i :: 0 <= i < |front| ==> front[i] == layout[i];
      }
      ConcatFitsFrom(front, n);
      assert Concat<nat>(layout) == Concat<nat>(front) + layout[|layout| - 1];
    }
  }

  /** The documented reshapings, on the first row [0, 1, 2, 3] and the second row
      [4, 5, 6, 7] of the example data. */
  lemma ApplyLayoutExamples()
    ensures Applied([[0, 1, 2, 3]], [0.0, 1.0, 2.0, 3.0]) == Some([[0.0, 1.0, 2.0, 3.0]])
    ensures Applied([[0, 1], [2, 3]], [4.0, 5.0, 6.0, 7.0]) == Some([[4.0, 5.0], [6.0, 7.0]])
    ensures Applied([[2, 0], [3, 1]], [0.0, 1.0, 2.0, 3.0]) == Some([[2.0, 0.0], [3.0, 1.0]])
    ensures Applied([[2, 0], [3, 1]], [4.0, 5.0, 6.0, 7.0]) == Some([[6.0, 4.0], [7.0, 5.0]])
  {
    var all: Layout := [[0, 1, 2, 3]];
    var x := [0.0, 1.0, 2.0, 3.0];
    assert Applicable(all, 4);
    var r := Applied(all, x).value;
    assert r[0] == Gather(x, all[0]) == x;
    assert r == [x];
    TwoGroups([[0, 1], [2, 3]], [4.0, 5.0, 6.0, 7.0]);
    TwoGroups([[2, 0], [3, 1]], [0.0, 1.0, 2.0, 3.0]);
    TwoGroups([[2, 0], [3, 1]], [4.0, 5.0, 6.0, 7.0]);
  }

  /** Two groups of two samples each on a four-sample row. */
  lemma TwoGroups(layout: Layout, x: seq<real>)
    requires |x| == 4 && |layout| == 2 && |layout[0]| == 2 && |layout[1]| == 2
    requires layout[0][0] < 4 && layout[0][1] < 4 && layout[1][0] < 4 && layout[1][1] < 4
    ensures Applied(layout, x) ==
              Some([[x[layout[0][0]], x[layout[0][1]]], [x[layout[1][0]], x[layout[1][1]]]])
  {
    assert Applicable(layout, 4);
    var r := Applied(layout, x).value;
    assert r[0] == [x[layout[0][0]], x[layout[0][1]]];
    assert r[1] == [x[layout[1][0]], x[layout[1][1]]];
    assert r == [r[0], r[1]];
  }

  /** A group of one sample is broadcast across the width; a group of any other
      wrong width makes the layout inapplicable. */
  lemma ApplyLayoutBroadcast(layout: Layout, data: seq<real>, i: nat, j: nat)
    requires Applicable(layout, |data|) && i < |layout| && |layout[i]| == 1 && j < |layout[0]|
    ensures Applied(layout, data).value[i][j] == data[layout[i][0]]
  {
  }

  lemma ApplyLayoutRejects(layout: Layout, data: seq<real>, i: nat)
    requires 0 < |layout| && i < |layout| && |layout[i]| != |layout[0]| && |layout[i]| != 1
    ensures Applied(layout, data) == None
  {
  }

  /** Squares of every entry. */
  function Squares(s: seq<real>): (r: seq<real>)
    ensures |r| == |s| && forall k :: 0 <= k < |s| ==> r[k] == s[k] * s[k]
  {
    seq(|s|, k requires 0 <= k < |s| => s[k] * s[k])
  }

  /** Per-row deviations from the row mean. */
  function RowResiduals(t: seq<seq<real>>): (r: seq<seq<real>>)
    requires forall i :: 0 <= i < |t| ==> |t[i]| > 0
    ensures |r| == |t| && forall i :: 0 <= i < |t| ==> r[i] == PadeStat.Deviations(t[i], PadeStat.Mean(t[i]))
  {
    seq(|t|, i requires 0 <= i < |t| => PadeStat.Deviations(t[i], PadeStat.Mean(t[i])))
  }

  /** `mean_and_rss(data)` on one table: the row means (each as a one-entry row)
      and `double_sum` of the squared deviations from them. Rows must be
      non-empty (numpy's mean of nothing is nan). */
  function MeanAndRss(t: seq<seq<real>>): (r: (seq<seq<real>>, real))
    requires forall i :: 0 <= i < |t| ==> |t[i]| > 0
    ensures |r.0| == |t| && forall i :: 0 <= i < |t| ==> r.0[i] == [PadeStat.Mean(t[i])]
    ensures r.1 >= 0.0
  {
    var res := RowResiduals(t);
    var sq := seq(|t|, i requires 0 <= i < |t| => Squares(res[i]));
    SquaresSliceSum(res);
    (seq(|t|, i requires 0 <= i < |t| => [PadeStat.Mean(t[i])]), PadeCommon.SliceSum(sq))
  }

  /** Summing squared entries row by row is the per-row sum of squares, added up. */
  lemma {:induction false} SquaresSliceSum(d: seq<seq<real>>)
    ensures PadeCommon.SliceSum(seq(|d|, i requires 0 <= i < |d| => Squares(d[i]))) == PadeStat.GroupsSumSquares(d)
    ensures PadeStat.GroupsSumSquares(d) >= 0.0
  {
    var sq := seq(|d|, i requires 0 <= i < |d| => Squares(d[i]));
    if |d| > 0 {
      var front := d[..|d| - 1];
      SquaresSliceSum(front);
      assert sq[..|d| - 1] == seq(|front|, i requires 0 <= i < |front| => Squares(front[i]));
      SumOfSquares(d[|d| - 1]);
    }
  }

  lemma {:induction false} SumOfSquares(s: seq<real>)
    ensures Sum(Squares(s)) == PadeStat.SumSquares(s)
  {
    if |s| > 0 {
      var front := s[..|s| - 1];
      assert forall k :: 0 <= k < |front| ==> Squares(s)[..|s| - 1][k] == Squares(front)[k];
      assert Squares(s)[..|s| - 1] == Squares(front);
      SumOfSquares(s[..|s| - 1]);
    }
  }

  /** The two generations agree: on a layout of equal, non-empty groups the rss of
      the applied table is the newer code's `rss(data, layout)`. */
  lemma MeanAndRssAgreesWithRss(layout: Layout, data: seq<real>)
    requires Applicable(layout, |data|) && |layout[0]| > 0
    requires forall i :: 0 <= i < |layout| ==> |layout[i]| == |layout[0]|
    ensures NonEmptyGroups(layout)
    ensures MeanAndRss(Applied(layout, data).value).1 == PadeStat.Rss(data, layout)
  {
    var t := Applied(layout, data).value;
    assert forall i :: 0 <= i < |layout| ==> t[i] == Gather(data, layout[i]);
    assert RowResiduals(t) == PadeStat.GroupResiduals(data, layout);
    SquaresSliceSum(RowResiduals(t));
    PadeStat.RssByGroups(data, layout);
  }

  /** `Ftest(layout_full, layout_reduced, alphas)`: stored as given, no checks. */
  datatype Ftest = Ftest(layoutFull: Layout, layoutReduced: Layout, alphas: Option<seq<real>>)

  /** `Ftest.__call__(data)` on one row: p_red = |reduced|, p_full = |full|,
      n = |reduced| * |reduced[0]|. None where the code raises (an inapplicable
      layout) or yields nan/inf (empty groups, zero denominators). */
  function FtestCall(f: Ftest, data: seq<real>): (r: Option<FValue>)
    ensures r.Some? ==> Applicable(f.layoutFull, |data|) && Applicable(f.layoutReduced, |data|) &&
                        |f.layoutFull[0]| > 0 && |f.layoutReduced[0]| > 0
    ensures r.Some? ==> (f.alphas.None? <==> r.value.Single?)
  {
    var full, red := Applied(f.layoutFull, data), Applied(f.layoutReduced, data);
    if full.None? || red.None? || |f.layoutFull[0]| == 0 || |f.layoutReduced[0]| == 0 then None
    else
      var rssFull := MeanAndRss(full.value).1;
      var rssRed := MeanAndRss(red.value).1;
      FRatio(rssRed, rssFull, |f.layoutFull|, |f.layoutReduced|,
             |f.layoutReduced| * |f.layoutReduced[0]|, f.alphas)
  }

  /** On equal-width groups the older F-test is the newer one's ratio, with the
      reduced layout as the block layout. */
  lemma FtestAgrees(f: Ftest, data: seq<real>)
    requires Applicable(f.layoutFull, |data|) && Applicable(f.layoutReduced, |data|)
    requires |f.layoutFull[0]| > 0 && |f.layoutReduced[0]| > 0
    requires forall i :: 0 <= i < |f.layoutFull| ==> |f.layoutFull[i]| == |f.layoutFull[0]|
    requires forall i :: 0 <= i < |f.layoutReduced| ==> |f.layoutReduced[i]| == |f.layoutReduced[0]|
    ensures NonEmptyGroups(f.layoutFull) && NonEmptyGroups(f.layoutReduced)
    ensures FtestCall(f, data) ==
              FRatio(PadeStat.Rss(data, f.layoutReduced), PadeStat.Rss(data, f.layoutFull),
                     |f.layoutFull|, |f.layoutReduced|, |f.layoutReduced| * |f.layoutReduced[0]|, f.alphas)
  {
    MeanAndRssAgreesWithRss(f.layoutFull, data);
    MeanAndRssAgreesWithRss(f.layoutReduced, data);
  }

  /** The documented example: full layout [[0, 1], [2, 3]], reduced [[0, 1, 2, 3]];
      the rows [1, 2, 3, 6], [2, 1, 1, 1] and [3, 1, 10, 4] give 3.6, 1.0 and 2.5. */
  lemma FtestExample()
    ensures FtestCall(Ftest([[0, 1], [2, 3]], [[0, 1, 2, 3]], None), [1.0, 2.0, 3.0, 6.0]) == Some(Single(3.6))
    ensures FtestCall(Ftest([[0, 1], [2, 3]], [[0, 1, 2, 3]], None), [2.0, 1.0, 1.0, 1.0]) == Some(Single(1.0))
    ensures FtestCall(Ftest([[0, 1], [2, 3]], [[0, 1, 2, 3]], None), [3.0, 1.0, 10.0, 4.0]) == Some(Single(2.5))
  {
    PadeStat.FtestExample();
    FtestExampleRow([1.0, 2.0, 3.0, 6.0]);
    FtestExampleRow([2.0, 1.0, 1.0, 1.0]);
    FtestExampleRow([3.0, 1.0, 10.0, 4.0]);
  }

  lemma FtestExampleRow(x: seq<real>)
    requires |x| == 4
    ensures PadeStat.DocumentedFits(4)
    ensures FtestCall(Ftest([[0, 1], [2, 3]], [[0, 1, 2, 3]], None), x) ==
              PadeStat.FtestCall(PadeStat.DocumentedFtest, x)
  {
    PadeStat.DocumentedFitsFour();
    var full: Layout := [[0, 1], [2, 3]];
    var red: Layout := [[0, 1, 2, 3]];
    assert Applicable(full, 4) && Applicable(red, 4);
    FtestAgrees(Ftest(full, red, None), x);
    PadeStat.ConcatSingle(red);
  }
}
