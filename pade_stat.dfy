/** The layout-based statistics of the newer code base (pade/stat.py), on one
    feature's row of samples: group means, residuals, the residual sum of
    squares, the F-test with its constructor check, and the constructor checks
    and pair indexing of the means-ratio and paired-difference statistics. */
module PadeStat {
  import opened Sequences
  import opened Wrappers
  import opened Layout
  import opened FStat

  /** Why a constructor raises: `UnsupportedLayoutException` with one of three
      messages, or the `ValueError` of `min` on an empty intersection. */
  datatype LayoutError = EmptyIntersection | GroupTooSmall | NotTwoConditions | NotPaired

  function Mean(s: seq<real>): real
    requires |s| > 0
  {
    Sum(s) / |s| as real
  }

  /** The mean of group i of the layout applied to `data`. */
  function GroupMean(data: seq<real>, layout: Layout, i: nat): real
    requires Fits(layout, |data|) && NonEmptyGroups(layout) && i < |layout|
  {
    Mean(Gather(data, layout[i]))
  }

  /** The means of every group, in layout order. */
  function GroupMeansOf(data: seq<real>, layout: Layout): (r: seq<real>)
    requires Fits(layout, |data|) && NonEmptyGroups(layout)
    ensures |r| == |layout|
  {
    seq(|layout|, i requires 0 <= i < |layout| => GroupMean(data, layout, i))
  }

  /** `group_means(data, layout)`: fills one slot per group with that group's mean. */
  method GroupMeans(data: seq<real>, layout: Layout) returns (res: array<real>)
    requires Fits(layout, |data|) && NonEmptyGroups(layout)
    ensures fresh(res)
    ensures res[..] == GroupMeansOf(data, layout)
  {
    res := new real[|layout|]((i) => 0.0);
    for i := 0 to |layout|
      invariant forall i' :: 0 <= i' < i ==> res[i'] == GroupMean(data, layout, i')
    {
      res[i] := Mean(Gather(data, layout[i]));
    }
  }

  /** `s - m` entry by entry. */
  function Deviations(s: seq<real>, m: real): (r: seq<real>)
    ensures |r| == |s| && forall k :: 0 <= k < |s| ==> r[k] == s[k] - m
  {
    seq(|s|, k requires 0 <= k < |s| => s[k] - m)
  }

  /** The residuals of each group, in layout order. */
  function GroupResiduals(data: seq<real>, layout: Layout): (r: seq<seq<real>>)
    requires Fits(layout, |data|) && NonEmptyGroups(layout)
    ensures |r| == |layout|
    ensures forall i :: 0 <= i < |layout| ==> |r[i]| == |layout[i]|
  {
    seq(|layout|, i requires 0 <= i < |layout| =>
      Deviations(Gather(data, layout[i]), GroupMean(data, layout, i)))
  }

  /** `residuals(data, layout)`: appends each group's deviations from its mean,
      then concatenates them. */
  method Residuals(data: seq<real>, layout: Layout) returns (r: seq<real>)
    requires Fits(layout, |data|) && NonEmptyGroups(layout)
    ensures r == Concat(GroupResiduals(data, layout))
  {
    var means := GroupMeans(data, layout);
    var diffs: seq<seq<real>> := [];
    for i := 0 to |layout|
      invariant diffs == GroupResiduals(data, layout)[..i]
    {
      var group := Gather(data, layout[i]);
      diffs := diffs + [Deviations(group, means[i])];
      assert GroupResiduals(data, layout)[..i + 1] == GroupResiduals(data, layout)[..i] + [GroupResiduals(data, layout)[i]];
    }
    assert diffs == GroupResiduals(data, layout);
    r := Concat(diffs);
  }

  /** Within every group the residuals sum to zero. */
  lemma ResidualsSumToZero(data: seq<real>, layout: Layout, i: nat)
    requires Fits(layout, |data|) && NonEmptyGroups(layout) && i < |layout|
    ensures Sum(GroupResiduals(data, layout)[i]) == 0.0
  {
    var g := Gather(data, layout[i]);
    SumDeviations(g, Mean(g));
    assert |g| as real * Mean(g) == Sum(g);
  }

  lemma {:induction false} SumDeviations(s: seq<real>, m: real)
    ensures Sum(Deviations(s, m)) == Sum(s) - |s| as real * m
  {
    if |s| > 0 {
      assert Deviations(s, m)[..|s| - 1] == Deviations(s[..|s| - 1], m);
      SumDeviations(s[..|s| - 1], m);
    }
  }

  /** There is one residual per layout entry. */
  lemma {:induction false} ResidualsLength(groups: seq<seq<real>>, layout: Layout)
    requires |groups| == |layout| && forall i :: 0 <= i < |layout| ==> |groups[i]| == |layout[i]|
    ensures |Concat(groups)| == |Concat(layout)|
  {
    if |layout| > 0 {
      ResidualsLength(groups[..|groups| - 1], layout[..|layout| - 1]);
    }
  }

  function SumSquares(s: seq<real>): (r: real)
    ensures r >= 0.0
  {
    if |s| == 0 then 0.0 else SumSquares(s[..|s| - 1]) + s[|s| - 1] * s[|s| - 1]
  }

  lemma {:induction false} SumSquaresConcat(a: seq<real>, b: seq<real>)
    ensures SumSquares(a + b) == SumSquares(a) + SumSquares(b)
  {
    if |b| == 0 {
      assert a + b == a;
    } else {
      assert (a + b)[..|a + b| - 1] == a + b[..|b| - 1];
      SumSquaresConcat(a, b[..|b| - 1]);
    }
  }

  /** `rss(data, layout)`: the sum of the squared residuals. */
  function Rss(data: seq<real>, layout: Layout): real
    requires Fits(layout, |data|) && NonEmptyGroups(layout)
  {
    SumSquares(Concat(GroupResiduals(data, layout)))
  }

  /** The residual sum of squares is non-negative and is the sum of the per-group sums. */
  lemma RssByGroups(data: seq<real>, layout: Layout)
    requires Fits(layout, |data|) && NonEmptyGroups(layout)
    ensures Rss(data, layout) >= 0.0
    ensures Rss(data, layout) == GroupsSumSquares(GroupResiduals(data, layout))
  {
    ConcatSumSquares(GroupResiduals(data, layout));
  }

  function GroupsSumSquares(groups: seq<seq<real>>): real
  {
    if |groups| == 0 then 0.0 else GroupsSumSquares(groups[..|groups| - 1]) + SumSquares(groups[|groups| - 1])
  }

  lemma {:induction false} ConcatSumSquares(groups: seq<seq<real>>)
    ensures SumSquares(Concat(groups)) == GroupsSumSquares(groups)
  {
    if |groups| > 0 {
      ConcatSumSquares(groups[..|groups| - 1]);
      SumSquaresConcat(Concat(groups[..|groups| - 1]), groups[|groups| - 1]);
    }
  }

  /** The layout [[0, 1], [2, 3]] on four samples: means, residuals and rss in closed form. */
  lemma TwoPairs(x: seq<real>)
    requires |x| == 4
    ensures GroupMeansOf(x, [[0, 1], [2, 3]]) == [(x[0] + x[1]) / 2.0, (x[2] + x[3]) / 2.0]
    ensures Concat(GroupResiduals(x, [[0, 1], [2, 3]])) ==
              [(x[0] - x[1]) / 2.0, (x[1] - x[0]) / 2.0, (x[2] - x[3]) / 2.0, (x[3] - x[2]) / 2.0]
  {
    var layout: Layout := [[0, 1], [2, 3]];
    PairMean(x, layout, 0);
    PairMean(x, layout, 1);
    var g := GroupResiduals(x, layout);
    assert g[0] == [(x[0] - x[1]) / 2.0, (x[1] - x[0]) / 2.0];
    assert g[1] == [(x[2] - x[3]) / 2.0, (x[3] - x[2]) / 2.0];
    assert g[..1] == [g[0]] && g[..1][..0] == [];
    assert Concat(g) == Concat(g[..1]) + g[1];
  }

  lemma PairMean(x: seq<real>, layout: Layout, i: nat)
    requires Fits(layout, |x|) && NonEmptyGroups(layout) && i < |layout| && |layout[i]| == 2
    ensures GroupMean(x, layout, i) == (x[layout[i][0]] + x[layout[i][1]]) / 2.0
  {
    Sum2(Gather(x, layout[i]));
  }

  /** The documented examples: `group_means([-1, -3, 4, 6], [[0, 1], [2, 3]])` is
      [-2, 5], `residuals([1, 2, 3, 6], ...)` is [-0.5, 0.5, -1.5, 1.5] and `rss` of
      the latter is 5.0. */
  lemma GroupStatsExample()
    ensures GroupMeansOf([-1.0, -3.0, 4.0, 6.0], [[0, 1], [2, 3]]) == [-2.0, 5.0]
    ensures Concat(GroupResiduals([1.0, 2.0, 3.0, 6.0], [[0, 1], [2, 3]])) == [-0.5, 0.5, -1.5, 1.5]
    ensures Rss([1.0, 2.0, 3.0, 6.0], [[0, 1], [2, 3]]) == 5.0
  {
    TwoPairs([-1.0, -3.0, 4.0, 6.0]);
    TwoPairs([1.0, 2.0, 3.0, 6.0]);
    SumSquaresExample();
  }

  lemma SumSquaresExample()
    ensures SumSquares([-0.5, 0.5, -1.5, 1.5]) == 5.0
  {
    SumSquares4([-0.5, 0.5, -1.5, 1.5]);
  }

  /** Arithmetic helpers of the doctest lemmas: sums of short literal rows. */
  lemma Sum2(s: seq<real>)
    requires |s| == 2
    ensures Sum(s) == s[0] + s[1]
  {
    assert s[..1][..0] == [];
    assert Sum(s[..1]) == s[0];
  }

  lemma Sum4(s: seq<real>)
    requires |s| == 4
    ensures Sum(s) == s[0] + s[1] + s[2] + s[3]
  {
    assert s[..3][..2] == s[..2];
    Sum2(s[..2]);
  }

  lemma SumSquares4(s: seq<real>)
    requires |s| == 4
    ensures SumSquares(s) == s[0] * s[0] + s[1] * s[1] + s[2] * s[2] + s[3] * s[3]
  {
    assert s[..3][..2] == s[..2];
    assert s[..2][..1][..0] == [];
    assert SumSquares(s[..2][..1]) == s[0] * s[0];
    assert SumSquares(s[..2]) == s[0] * s[0] + s[1] * s[1];
    assert SumSquares(s[..3]) == SumSquares(s[..2]) + s[2] * s[2];
  }

  /** The checked state of an `Ftest`: the intersected full layout, the block
      layout and the optional tuning parameters. */
  datatype Ftest = Ftest(layoutFull: Layout, blockLayout: Layout, alphas: Option<seq<real>>)

  /** `Ftest(condition_layout, block_layout, alphas)`: refuses an intersection with
      a group of fewer than two samples (and an empty one, where `min` raises). */
  function NewFtest(conditionLayout: Layout, blockLayout: Layout, alphas: Option<seq<real>>)
    : (r: Result<Ftest, LayoutError>)
    ensures r.Err? <==> (|IntersectLayouts(blockLayout, conditionLayout)| == 0 ||
                         exists k :: 0 <= k < |IntersectLayouts(blockLayout, conditionLayout)| &&
                                     |IntersectLayouts(blockLayout, conditionLayout)[k]| < 2)
    ensures r.Ok? ==> r.value.layoutFull == IntersectLayouts(blockLayout, conditionLayout) &&
                      r.value.blockLayout == blockLayout && r.value.alphas == alphas &&
                      forall k :: 0 <= k < |r.value.layoutFull| ==> |r.value.layoutFull[k]| >= 2
  {
    var full := IntersectLayouts(blockLayout, conditionLayout);
    if |full| == 0 then Err(EmptyIntersection)
    else if exists k :: 0 <= k < |full| && |full[k]| < 2 then Err(GroupTooSmall)
    else Ok(Ftest(full, blockLayout, alphas))
  }

  /** `Ftest.__call__(data)`: the F ratio from the full and block residual sums of
      squares, with p_red = number of blocks, p_full = number of full groups and
      n = total block membership. */
  function FtestCall(f: Ftest, data: seq<real>): Option<FValue>
    requires Fits(f.layoutFull, |data|) && NonEmptyGroups(f.layoutFull)
    requires Fits(f.blockLayout, |data|) && NonEmptyGroups(f.blockLayout)
  {
    FRatio(Rss(data, f.blockLayout), Rss(data, f.layoutFull),
           |f.layoutFull|, |f.blockLayout|, |Concat(f.blockLayout)|, f.alphas)
  }

  /** The documented F-test: condition layout [[0, 1], [2, 3]], one block of all
      four samples; the rows [1, 2, 3, 6], [2, 1, 1, 1] and [3, 1, 10, 4] give 3.6,
      1.0 and 2.5. */
  lemma FtestExample()
    ensures NewFtest([[0, 1], [2, 3]], [[0, 1, 2, 3]], None) == Ok(DocumentedFtest)
    ensures DocumentedFits(4)
    ensures FtestCall(DocumentedFtest, [1.0, 2.0, 3.0, 6.0]) == Some(Single(3.6))
    ensures FtestCall(DocumentedFtest, [2.0, 1.0, 1.0, 1.0]) == Some(Single(1.0))
    ensures FtestCall(DocumentedFtest, [3.0, 1.0, 10.0, 4.0]) == Some(Single(2.5))
  {
    NewFtestExample();
    FtestRowA();
    FtestRowB();
    FtestRowC();
  }

  lemma NewFtestExample()
    ensures NewFtest([[0, 1], [2, 3]], [[0, 1, 2, 3]], None) == Ok(DocumentedFtest)
  {
    IntersectExample();
    var full: Layout := [[0, 1], [2, 3]];
    assert forall k :: 0 <= k < |full| ==> |full[k]| >= 2;
  }

  /** Helper of the doctest lemmas: the documented layouts address four samples. */
  lemma DocumentedFitsFour()
    ensures DocumentedFits(4)
  {
    var full: Layout := [[0, 1], [2, 3]];
    var block: Layout := [[0, 1, 2, 3]];
    assert forall i, j :: 0 <= i < |full| && 0 <= j < |full[i]| ==> full[i][j] < 4;
    assert forall i, j :: 0 <= i < |block| && 0 <= j < |block[i]| ==> block[i][j] < 4;
  }

  /** The Ftest the documented example constructs. */
  const DocumentedFtest := Ftest([[0, 1], [2, 3]], [[0, 1, 2, 3]], None)

  predicate DocumentedFits(n: nat)
  {
    Fits(DocumentedFtest.layoutFull, n) && NonEmptyGroups(DocumentedFtest.layoutFull) &&
    Fits(DocumentedFtest.blockLayout, n) && NonEmptyGroups(DocumentedFtest.blockLayout)
  }

  lemma FtestRowA()
    ensures DocumentedFits(4) && FtestCall(DocumentedFtest, [1.0, 2.0, 3.0, 6.0]) == Some(Single(3.6))
  {
    var x := [1.0, 2.0, 3.0, 6.0];
    FtestFormula(x);
    assert Deviations(x, 3.0) == [-2.0, -1.0, 0.0, 3.0];
    SumSquares4([-2.0, -1.0, 0.0, 3.0]);
    SumSquares4([-0.5, 0.5, -1.5, 1.5]);
  }

  lemma FtestRowB()
    ensures DocumentedFits(4) && FtestCall(DocumentedFtest, [2.0, 1.0, 1.0, 1.0]) == Some(Single(1.0))
  {
    var x := [2.0, 1.0, 1.0, 1.0];
    FtestFormula(x);
    assert Deviations(x, 1.25) == [0.75, -0.25, -0.25, -0.25];
    SumSquares4([0.75, -0.25, -0.25, -0.25]);
    SumSquares4([0.5, -0.5, 0.0, 0.0]);
  }

  lemma FtestRowC()
    ensures DocumentedFits(4) && FtestCall(DocumentedFtest, [3.0, 1.0, 10.0, 4.0]) == Some(Single(2.5))
  {
    var x := [3.0, 1.0, 10.0, 4.0];
    FtestFormula(x);
    assert Deviations(x, 4.5) == [-1.5, -3.5, 5.5, -0.5];
    SumSquares4([-1.5, -3.5, 5.5, -0.5]);
    SumSquares4([1.0, -1.0, 3.0, -3.0]);
  }

  /** The documented design, one block of four samples and two condition pairs:
      F compares the deviations from the overall mean with those from the pair means,
      with p_full = 2, p_red = 1 and n = 4. */
  lemma FtestFormula(x: seq<real>)
    requires |x| == 4
    ensures DocumentedFits(|x|)
    ensures FtestCall(DocumentedFtest, x) ==
              FRatio(SumSquares(Deviations(x, (x[0] + x[1] + x[2] + x[3]) / 4.0)),
                     SumSquares([(x[0] - x[1]) / 2.0, (x[1] - x[0]) / 2.0, (x[2] - x[3]) / 2.0, (x[3] - x[2]) / 2.0]),
                     2, 1, 4, None)
  {
    DocumentedFitsFour();
    TwoPairs(x);
    OneBlock(x);
    assert Concat([[0, 1, 2, 3]]) == [0, 1, 2, 3] by {
      ConcatSingle([[0, 1, 2, 3]]);
    }
  }

  lemma ConcatSingle<T>(ss: seq<seq<T>>)
    requires |ss| == 1
    ensures Concat(ss) == ss[0]
  {
    assert ss[..0] == [];
  }

  /** The single block [[0, 1, 2, 3]]: its residuals are the deviations from the overall mean. */
  lemma OneBlock(x: seq<real>)
    requires |x| == 4
    ensures Concat(GroupResiduals(x, [[0, 1, 2, 3]])) == Deviations(x, (x[0] + x[1] + x[2] + x[3]) / 4.0)
  {
    var layout: Layout := [[0, 1, 2, 3]];
    var g := Gather(x, layout[0]);
    assert g == x;
    Sum4(x);
    var m := Mean(x);
    assert m == (x[0] + x[1] + x[2] + x[3]) / 4.0;
    assert GroupMean(x, layout, 0) == m;
    var r := GroupResiduals(x, layout);
    ConcatSingle(r);
    assert r[0] == Deviations(x, m);
  }

  /** `MeansRatio(condition_layout, block_layout, alphas, symmetric)`: the checked
      configuration. */
  datatype MeansRatio = MeansRatio(conditionLayout: Layout, blockLayout: Layout,
                                   alphas: Option<seq<real>>, symmetric: bool)

  /** The constructor raises unless there are exactly two conditions. */
  function NewMeansRatio(conditionLayout: Layout, blockLayout: Layout, alphas: Option<seq<real>>, symmetric: bool)
    : (r: Result<MeansRatio, LayoutError>)
    ensures r.Ok? <==> |conditionLayout| == 2
    ensures r.Ok? ==> r.value == MeansRatio(conditionLayout, blockLayout, alphas, symmetric)
  {
    if |conditionLayout| != 2 then Err(NotTwoConditions)
    else Ok(MeansRatio(conditionLayout, blockLayout, alphas, symmetric))
  }

  /** The symmetric step `max(ratio, 1 / ratio)`; a zero ratio (inverse inf) is None. */
  function Symmetric(ratio: real): Option<real>
  {
    if ratio == 0.0 then None else Some(Max(ratio, 1.0 / ratio))
  }

  /** On a positive ratio the symmetric value is at least 1, leaves ratios >= 1 alone,
      and does not depend on which condition is on top. */
  lemma SymmetricProperties(ratio: real)
    requires ratio > 0.0
    ensures Symmetric(ratio).Some? && Symmetric(ratio).value >= 1.0
    ensures ratio >= 1.0 ==> Symmetric(ratio).value == ratio
    ensures Symmetric(1.0 / ratio) == Symmetric(ratio)
  {
    var inv := 1.0 / ratio;
    assert inv * ratio == 1.0;
    assert 1.0 / inv == ratio;
    if ratio < 1.0 {
      assert inv > 1.0;
    } else {
      assert inv <= 1.0;
    }
  }

  /** The checked state of a `OneSampleDifferenceTTest`. */
  datatype PairedTest = PairedTest(conditionLayout: Layout, blockLayout: Layout, alphas: Option<seq<real>>)

  /** The constructor raises unless the blocks are pairs, and then unless there are
      two conditions. */
  function NewPairedTest(conditionLayout: Layout, blockLayout: Layout, alphas: Option<seq<real>>)
    : (r: Result<PairedTest, LayoutError>)
    ensures r.Ok? <==> LayoutIsPaired(blockLayout) && |conditionLayout| == 2
    ensures !LayoutIsPaired(blockLayout) ==> r == Err(NotPaired)
    ensures LayoutIsPaired(blockLayout) && |conditionLayout| != 2 ==> r == Err(NotTwoConditions)
    ensures r.Ok? ==> r.value == PairedTest(conditionLayout, blockLayout, alphas)
  {
    if !LayoutIsPaired(blockLayout) then Err(NotPaired)
    else if |conditionLayout| != 2 then Err(NotTwoConditions)
    else Ok(PairedTest(conditionLayout, blockLayout, alphas))
  }

  /** The distinct members of `g`, first occurrences in order (Python's `set(g)`). */
  function Distinct(g: seq<nat>): (r: seq<nat>)
    ensures forall k :: 0 <= k < |r| ==> r[k] in g
    ensures forall x :: x in g ==> x in r
    ensures NoDuplicates(r)
  {
    if |g| == 0 then []
    else
      var front := Distinct(g[..|g| - 1]);
      if g[|g| - 1] in g[..|g| - 1] then front else front + [g[|g| - 1]]
  }

  /** `s.intersection(cond)` for a block s, listed in block order. */
  function Inter(block: seq<nat>, cond: seq<nat>): seq<nat>
  {
    Meet(Distinct(block), cond)
  }

  /** The intersection holds each sample of the block that belongs to the
      condition, once. */
  lemma InterMembers(block: seq<nat>, cond: seq<nat>)
    ensures forall x :: x in Inter(block, cond) <==> x in block && x in cond
    ensures NoDuplicates(Inter(block, cond))
  {
    var d := Distinct(block);
    forall x | x in block && x in cond ensures x in Inter(block, cond) {
      MeetComplete(d, cond, x);
    }
    MeetNoDuplicates(d, cond);
  }

  /** A block holding exactly one sample of the condition intersects it in
      exactly that sample. */
  lemma InterSingle(block: seq<nat>, cond: seq<nat>, x: nat)
    requires x in block && x in cond
    requires forall y :: y in block && y in cond ==> y == x
    ensures Inter(block, cond) == [x]
  {
    InterMembers(block, cond);
    var r := Inter(block, cond);
    assert x in r;
    assert forall k :: 0 <= k < |r| ==> r[k] == x;
    FirstTwoDiffer(r);
  }

  /** The indexes one side of the pairing collects: each block's members of
      `cond`, block by block. */
  function PairSide(blocks: Layout, cond: seq<nat>): seq<nat>
  {
    if |blocks| == 0 then [] else PairSide(blocks[..|blocks| - 1], cond) + Inter(blocks[|blocks| - 1], cond)
  }

  /** The index lists `idxs_a`, `idxs_b` of `OneSampleDifferenceTTest.__call__`, extended block by block. */
  method PairIndexes(blocks: Layout, conditions: Layout) returns (idxsA: seq<nat>, idxsB: seq<nat>)
    requires |conditions| == 2
    ensures idxsA == PairSide(blocks, conditions[0])
    ensures idxsB == PairSide(blocks, conditions[1])
  {
    idxsA, idxsB := [], [];
    for i := 0 to |blocks|
      invariant idxsA == PairSide(blocks[..i], conditions[0])
      invariant idxsB == PairSide(blocks[..i], conditions[1])
    {
      assert blocks[..i + 1][..i] == blocks[..i];
      idxsA := idxsA + Inter(blocks[i], conditions[0]);
      idxsB := idxsB + Inter(blocks[i], conditions[1]);
    }
    assert blocks[..|blocks|] == blocks;
  }

  /** `data[..., idxs_a] - data[..., idxs_b]` with numpy broadcasting: equal lengths
      subtract entry by entry, a side of length 1 is repeated, anything else raises. */
  function PairDifferences(data: seq<real>, a: seq<nat>, b: seq<nat>): (r: Option<seq<real>>)
    requires forall k :: 0 <= k < |a| ==> a[k] < |data|
    requires forall k :: 0 <= k < |b| ==> b[k] < |data|
    ensures r.Some? <==> |a| == |b| || |a| == 1 || |b| == 1
    ensures |a| == |b| ==> r == Some(seq(|a|, k requires 0 <= k < |a| => data[a[k]] - data[b[k]]))
  {
    if |a| == |b| then Some(seq(|a|, k requires 0 <= k < |a| => data[a[k]] - data[b[k]]))
    else if |a| == 1 then Some(seq(|b|, k requires 0 <= k < |b| => data[a[0]] - data[b[k]]))
    else if |b| == 1 then Some(seq(|a|, k requires 0 <= k < |a| => data[a[k]] - data[b[0]]))
    else None
  }

  /** In a proper paired design, where every block holds exactly one sample of each
      condition, the paired sides list those samples block by block. */
  lemma {:induction false} PairSideSingles(blocks: Layout, cond: seq<nat>)
    requires forall i :: 0 <= i < |blocks| ==> |Inter(blocks[i], cond)| == 1
    ensures |PairSide(blocks, cond)| == |blocks|
    ensures forall i :: 0 <= i < |blocks| ==> PairSide(blocks, cond)[i] == Inter(blocks[i], cond)[0]
  {
    if |blocks| > 0 {
      var front := blocks[..|blocks| - 1];
      assert forall i :: 0 <= i < |front| ==> front[i] == blocks[i];
      PairSideSingles(front, cond);
    }
  }

  /** ... so the differences are, per block, the condition-0 member minus the
      condition-1 member. */
  lemma PairedDifferences(data: seq<real>, blocks: Layout, conditions: Layout)
    requires |conditions| == 2
    requires forall i :: 0 <= i < |blocks| ==>
               |Inter(blocks[i], conditions[0])| == 1 && |Inter(blocks[i], conditions[1])| == 1
    requires forall i :: 0 <= i < |blocks| ==>
               Inter(blocks[i], conditions[0])[0] < |data| && Inter(blocks[i], conditions[1])[0] < |data|
    ensures var a, b := PairSide(blocks, conditions[0]), PairSide(blocks, conditions[1]);
            |a| == |b| == |blocks| &&
            (forall k :: 0 <= k < |a| ==> a[k] < |data| && b[k] < |data|) &&
            PairDifferences(data, a, b) ==
              Some(seq(|blocks|, i requires 0 <= i < |blocks| =>
                data[Inter(blocks[i], conditions[0])[0]] - data[Inter(blocks[i], conditions[1])[0]]))
  {
    PairSideSingles(blocks, conditions[0]);
    PairSideSingles(blocks, conditions[1]);
    var a, b := PairSide(blocks, conditions[0]), PairSide(blocks, conditions[1]);
    assert seq(|a|, k requires 0 <= k < |a| => data[a[k]] - data[b[k]]) ==
           seq(|blocks|, i requires 0 <= i < |blocks| =>
             data[Inter(blocks[i], conditions[0])[0]] - data[Inter(blocks[i], conditions[1])[0]]);
  }
}
