/** The scoring half of the original scorer (python/page/core.py): the bias
    correction with its six-slot work array, the per-bin score table with its
    monotone repair, the per-feature score lookup and the per-level summaries. */
module PageScores {
  import opened Sequences
  import opened BiasCorrection
  import opened Wrappers

  /** `adjust_num_diff(V0, R, num_ids)`: fills V[0..5] and returns V[5]. */
  method AdjustNumDiff(v0: real, r: real, numIds: real) returns (result: real)
    requires numIds != 0.0
    ensures result == Adjusted(v0, r, numIds)
  {
    var v := new real[6];
    v[0] := v0;
    for i := 1 to 6
      invariant v[0] == v0
      invariant forall k :: 0 <= k < i ==> v[k] == Iterate(v0, r, numIds, k)
    {
      v[i] := v[0] - v[0] / numIds * (r - v[i - 1]);
    }
    result := v[5];
  }

  /** Running maximum: entry i is the largest of s[0..i]. */
  function PrefixMax(s: seq<real>): (p: seq<real>)
    ensures |p| == |s|
  {
    if |s| <= 1 then s
    else
      var q := PrefixMax(s[..|s| - 1]);
      q + [Max(q[|q| - 1], s[|s| - 1])]
  }

  predicate NonDecreasing(s: seq<real>)
  {
    forall i, j :: 0 <= i <= j < |s| ==> s[i] <= s[j]
  }

  /** Entry i of the running maximum bounds s[0..i] and is one of them. */
  lemma {:induction false} PrefixMaxAt(s: seq<real>, i: nat)
    requires i < |s|
    ensures forall j :: 0 <= j <= i ==> s[j] <= PrefixMax(s)[i]
    ensures exists j :: 0 <= j <= i && PrefixMax(s)[i] == s[j]
  {
    var n := |s|;
    var p := PrefixMax(s);
    if n == 1 {
      assert p[i] == s[0];
    } else {
      var init := s[..n - 1];
      var q := PrefixMax(init);
      assert p == q + [Max(q[n - 2], s[n - 1])];
      if i < n - 1 {
        PrefixMaxAt(init, i);
        assert p[i] == q[i];
        forall j | 0 <= j <= i ensures s[j] <= p[i] {
          assert init[j] == s[j];
        }
        var j :| 0 <= j <= i && q[i] == init[j];
        assert p[i] == s[j];
      } else {
        PrefixMaxAt(init, n - 2);
        forall j | 0 <= j <= i ensures s[j] <= p[i] {
          if j < n - 1 {
            assert init[j] == s[j];
          }
        }
        var j :| 0 <= j <= n - 2 && q[n - 2] == init[j];
        if s[n - 1] > q[n - 2] {
          assert p[i] == s[n - 1];
        } else {
          assert p[i] == s[j];
        }
      }
    }
  }

  /** Appending one value appends its maximum with the last running maximum. */
  lemma PrefixMaxSnoc(t: seq<real>, x: real)
    requires |t| > 0
    ensures PrefixMax(t + [x]) == PrefixMax(t) + [Max(PrefixMax(t)[|t| - 1], x)]
  {
    assert (t + [x])[..|t|] == t;
  }

  lemma {:induction false} PrefixMaxNonDecreasing(s: seq<real>)
    ensures NonDecreasing(PrefixMax(s))
  {
    var n := |s|;
    if n > 1 {
      PrefixMaxNonDecreasing(s[..n - 1]);
      var q := PrefixMax(s[..n - 1]);
      var p := PrefixMax(s);
      forall i, j | 0 <= i <= j < n ensures p[i] <= p[j] {
        if j == n - 1 && i < n - 1 {
          assert q[i] <= q[n - 2];
        }
      }
    }
  }

  /** Repair keeps the first entry and leaves an already non-decreasing sequence alone. */
  lemma {:induction false} PrefixMaxFixesSorted(s: seq<real>)
    requires NonDecreasing(s)
    ensures PrefixMax(s) == s
  {
    var n := |s|;
    if n > 1 {
      assert NonDecreasing(s[..n - 1]);
      PrefixMaxFixesSorted(s[..n - 1]);
      assert s[n - 2] <= s[n - 1];
      assert s == s[..n - 1] + [s[n - 1]];
    }
  }

  /** Repairing twice is repairing once. */
  lemma PrefixMaxIdempotent(s: seq<real>)
    ensures PrefixMax(PrefixMax(s)) == PrefixMax(s)
    ensures |s| > 0 ==> PrefixMax(s)[0] == s[0]
  {
    PrefixMaxNonDecreasing(s);
    PrefixMaxFixesSorted(PrefixMax(s));
    if |s| > 0 { PrefixMaxAt(s, 0); }
  }

  /** The repair is the least non-decreasing sequence that lies above the input. */
  lemma {:induction false} PrefixMaxLeast(s: seq<real>, t: seq<real>)
    requires |t| == |s| && NonDecreasing(t)
    requires forall i :: 0 <= i < |s| ==> s[i] <= t[i]
    ensures forall i :: 0 <= i < |s| ==> PrefixMax(s)[i] <= t[i]
  {
    forall i | 0 <= i < |s| ensures PrefixMax(s)[i] <= t[i] {
      PrefixMaxAt(s, i);
      var j :| 0 <= j <= i && PrefixMax(s)[i] == s[j];
      assert s[j] <= t[j] <= t[i];
    }
  }

  /** `ensure_increases(a)`: overwrites a[i+1] with max(a[i], a[i+1]) from left
      to right, so `a` becomes its own running maximum. Nothing is returned. */
  method EnsureIncreases(a: array<real>)
    modifies a
    ensures a[..] == PrefixMax(old(a[..]))
  {
    ghost var s := a[..];
    var n := a.Length;
    if n == 0 {
      return;
    }
    var i := 0;
    while i < n - 1
      invariant 0 <= i <= n - 1
      invariant a[..i + 1] == PrefixMax(s[..i + 1])
      invariant forall k :: i < k < n ==> a[k] == s[k]
    {
      ghost var pre := a[..i + 1];
      PrefixMaxSnoc(s[..i + 1], s[i + 1]);
      assert s[..i + 2] == s[..i + 1] + [s[i + 1]];
      assert a[i] == pre[i] && a[i + 1] == s[i + 1];
      a[i + 1] := Max(a[i], a[i + 1]);
      assert a[..i + 2] == pre + [a[i + 1]];
      i := i + 1;
    }
    assert a[..] == a[..n];
    assert s[..n] == s;
  }

  /** `fill_bin` can score every bin of the row: a bin with an observed count
      needs a non-zero feature count. */
  predicate Scorable(unperm: seq<real>, m: real)
  {
    forall b :: 0 <= b < |unperm| && unperm[b] > 0.0 ==> m != 0.0
  }

  /** The raw (unrepaired) scores of one row of bins. */
  function FillRow(unperm: seq<real>, perm: seq<real>, m: real): (r: seq<real>)
    requires |perm| == |unperm| && Scorable(unperm, m)
    ensures |r| == |unperm|
    ensures forall b :: 0 <= b < |unperm| ==> r[b] == FillBin(unperm[b], perm[b], m)
  {
    seq(|unperm|, b requires 0 <= b < |unperm| => FillBin(unperm[b], perm[b], m))
  }

  /** The first loop of `make_confidence_bins` on one row: every bin scored by
      `fill_bin` into a fresh array. */
  method ScoreRow(unperm: seq<real>, perm: seq<real>, m: real) returns (row: array<real>)
    requires |perm| == |unperm| && Scorable(unperm, m)
    ensures fresh(row) && row[..] == FillRow(unperm, perm, m)
  {
    row := new real[|unperm|];
    for b := 0 to |unperm|
      invariant forall b' :: 0 <= b' < b ==> row[b'] == FillBin(unperm[b'], perm[b'], m)
    {
      row[b] := FillBin(unperm[b], perm[b], m);
    }
  }

  /** `make_confidence_bins`: score every bin with `fill_bin`, then repair each
      row along the bin axis. Rows are independent, so each is filled and then
      repaired before the next; the result is the same as filling all first. */
  method MakeConfidenceBins(unperm: seq<seq<real>>, perm: seq<seq<real>>, m: nat)
    returns (conf: seq<seq<real>>)
    requires |perm| == |unperm|
    requires forall c :: 0 <= c < |unperm| ==> |perm[c]| == |unperm[c]|
    requires forall c :: 0 <= c < |unperm| ==> Scorable(unperm[c], m as real)
    ensures |conf| == |unperm|
    ensures forall c :: 0 <= c < |unperm| ==>
              conf[c] == PrefixMax(FillRow(unperm[c], perm[c], m as real))
    ensures forall c :: 0 <= c < |unperm| ==> NonDecreasing(conf[c])
  {
    var mr := m as real;
    conf := [];
    for c := 0 to |unperm|
      invariant |conf| == c
      invariant forall c' :: 0 <= c' < c ==> conf[c'] == PrefixMax(FillRow(unperm[c'], perm[c'], mr))
      invariant forall c' :: 0 <= c' < c ==> NonDecreasing(conf[c'])
    {
      var row := ScoreRow(unperm[c], perm[c], mr);
      EnsureIncreases(row);
      PrefixMaxNonDecreasing(FillRow(unperm[c], perm[c], mr));
      conf := conf + [row[..]];
    }
  }

  /** Python's `int(x)`: truncation toward zero. */
  function Trunc(x: real): int
  {
    if x >= 0.0 then x.Floor else -((-x).Floor)
  }

  /** `num_bins * stat / extreme`, before truncation. */
  function Scaled(h: real, stat: real, extreme: real): real
    requires extreme != 0.0
  {
    h * stat / extreme
  }

  /** `int(num_bins * stat / extreme)`: the bin a statistic falls in. */
  function BinIndex(numBins: int, stat: real, extreme: real): int
    requires extreme != 0.0
  {
    Trunc(Scaled(numBins as real, stat, extreme))
  }

  /** numpy indexing of one row: negative indexes count from the end; anything
      else out of range raises (None). */
  function PyIndex(s: seq<real>, b: int): Option<real>
  {
    if 0 <= b < |s| then Some(s[b])
    else if -|s| <= b < 0 then Some(s[|s| + b])
    else None
  }

  /** One (feature, condition) cell of `get_gene_confidences` for a condition
      other than 0: (up score, down score), or None where Python raises (a zero
      extreme, whose quotient is inf or nan, or a bin index out of range). */
  function CellConf(stat: real, minc: real, maxc: real, binsU: seq<real>, binsD: seq<real>, numBins: int)
    : Option<(real, real)>
  {
    if stat >= 0.0 then
      if maxc == 0.0 then None
      else match PyIndex(binsU, BinIndex(numBins, stat, maxc))
        case None => None
        case Some(x) => Some((x, 0.0))
    else
      if minc == 0.0 then None
      else match PyIndex(binsD, BinIndex(numBins, stat, minc))
        case None => None
        case Some(x) => Some((0.0, x))
  }

  /** A non-negative statistic sets only the up score, a negative one only the down score. */
  lemma CellConfOneDirection(stat: real, minc: real, maxc: real, binsU: seq<real>, binsD: seq<real>, numBins: int)
    requires CellConf(stat, minc, maxc, binsU, binsD, numBins).Some?
    ensures var (u, d) := CellConf(stat, minc, maxc, binsU, binsD, numBins).value;
      (stat >= 0.0 ==> d == 0.0 && PyIndex(binsU, BinIndex(numBins, stat, maxc)) == Some(u)) &&
      (stat < 0.0 ==> u == 0.0 && PyIndex(binsD, BinIndex(numBins, stat, minc)) == Some(d))
  {
  }

  /** The down direction: a statistic within [min, 0) reads bin int(num_bins * stat / min). */
  lemma CellConfDownInRange(stat: real, minc: real, maxc: real, binsU: seq<real>, binsD: seq<real>, numBins: nat)
    requires minc <= stat < 0.0 && |binsD| == numBins + 1
    ensures 0 <= BinIndex(numBins, stat, minc) <= numBins
    ensures CellConf(stat, minc, maxc, binsU, binsD, numBins)
            == Some((0.0, binsD[BinIndex(numBins, stat, minc)]))
  {
    BinIndexNegated(numBins, stat, minc);
    FractionInRange(numBins, -stat, -minc);
  }

  /** A statistic within [0, max] lands in bin int(num_bins * stat / max), which lies
      in [0, num_bins]; so a row of num_bins + 1 scores is read without wrap-around. */
  lemma CellConfUpInRange(stat: real, minc: real, maxc: real, binsU: seq<real>, binsD: seq<real>, numBins: nat)
    requires 0.0 <= stat <= maxc && maxc > 0.0 && |binsU| == numBins + 1
    ensures 0 <= BinIndex(numBins, stat, maxc) <= numBins
    ensures CellConf(stat, minc, maxc, binsU, binsD, numBins)
            == Some((binsU[BinIndex(numBins, stat, maxc)], 0.0))
  {
    FractionInRange(numBins, stat, maxc);
  }

  lemma BinIndexNegated(numBins: nat, stat: real, extreme: real)
    requires extreme != 0.0
    ensures BinIndex(numBins, stat, extreme) == BinIndex(numBins, -stat, -extreme)
  {
    ScaledNegated(numBins as real, stat, extreme);
  }

  lemma ScaledNegated(h: real, stat: real, extreme: real)
    requires extreme != 0.0
    ensures Scaled(h, stat, extreme) == Scaled(h, -stat, -extreme)
  {
    MulNegated(h, stat);
    DivNegated(h * stat, extreme);
  }

  lemma MulNegated(h: real, a: real)
    ensures h * (-a) == -(h * a)
  {
  }

  lemma DivNegated(a: real, t: real)
    requires t != 0.0
    ensures (-a) / (-t) == a / t
  {
  }

  lemma FractionInRange(numBins: nat, x: real, top: real)
    requires 0.0 <= x <= top && top > 0.0
    ensures 0 <= BinIndex(numBins, x, top) <= numBins
  {
    ScaledInRange(numBins as real, x, top);
    TruncInRange(Scaled(numBins as real, x, top), numBins);
  }

  lemma ScaledInRange(h: real, x: real, top: real)
    requires h >= 0.0 && 0.0 <= x <= top && top > 0.0
    ensures 0.0 <= Scaled(h, x, top) <= h
  {
    MulNonNegative(h, x);
    MulMonotone(h, x, top);
    DivBounded(h * x, h, top);
  }

  lemma MulNonNegative(a: real, b: real)
    requires a >= 0.0 && b >= 0.0
    ensures a * b >= 0.0
  {
  }

  lemma DivBounded(a: real, b: real, t: real)
    requires t > 0.0 && 0.0 <= a <= b * t
    ensures 0.0 <= a / t <= b
  {
  }

  lemma MulMonotone(h: real, x: real, t: real)
    requires h >= 0.0 && x <= t
    ensures h * x <= h * t
  {
  }

  lemma TruncInRange(q: real, h: nat)
    requires 0.0 <= q <= h as real
    ensures 0 <= Trunc(q) <= h
  {
  }

  /** Cell (j, c) of `get_gene_confidences`: zero for condition 0. */
  function GeneConfCell(unperm: seq<seq<real>>, mins: seq<real>, maxes: seq<real>,
                        confU: seq<seq<real>>, confD: seq<seq<real>>, j: nat, c: nat)
    : Option<(real, real)>
    requires j < |unperm| && c < |unperm[j]| && c < |mins| && c < |maxes| && c < |confU| && c < |confD|
  {
    if c == 0 then Some((0.0, 0.0))
    else CellConf(unperm[j][c], mins[c], maxes[c], confU[c], confD[c], |confU[0]| - 1)
  }

  /** `get_gene_confidences(unperm_stats, mins, maxes, conf_bins_u, conf_bins_d)`:
      fills the (features x conditions) up and down score tables in index order;
      `ok` is false when some cell raises in Python. */
  method GetGeneConfidences(unperm: seq<seq<real>>, mins: seq<real>, maxes: seq<real>,
                            confU: seq<seq<real>>, confD: seq<seq<real>>, numFeatures: nat, n: nat)
    returns (ok: bool, geneU: array2<real>, geneD: array2<real>)
    requires Rect(unperm, numFeatures, n) && |mins| == n && |maxes| == n
    requires |confU| == n && n > 0 && Rect(confU, n, |confU[0]|) && |confD| == n
    ensures fresh(geneU) && fresh(geneD)
    ensures geneU.Length0 == numFeatures && geneU.Length1 == n
    ensures geneD.Length0 == numFeatures && geneD.Length1 == n
    ensures ok <==> forall j, c :: 0 <= j < numFeatures && 0 <= c < n ==>
                      GeneConfCell(unperm, mins, maxes, confU, confD, j, c).Some?
    ensures ok ==> forall j, c :: 0 <= j < numFeatures && 0 <= c < n ==>
                     geneU[j, c] == GeneConfCell(unperm, mins, maxes, confU, confD, j, c).value.0 &&
                     geneD[j, c] == GeneConfCell(unperm, mins, maxes, confU, confD, j, c).value.1
  {
    var numBins := |confU[0]| - 1;
    geneU := new real[numFeatures, n]((j, c) => 0.0);
    geneD := new real[numFeatures, n]((j, c) => 0.0);
    ok := true;
    var j := 0;
    while j < numFeatures && ok
      invariant 0 <= j <= numFeatures
      invariant forall j' :: j <= j' < numFeatures ==> geneU[j', 0] == 0.0 && geneD[j', 0] == 0.0
      invariant ok ==> forall j', c' :: 0 <= j' < j && 0 <= c' < n ==>
                  GeneConfCell(unperm, mins, maxes, confU, confD, j', c').Some? &&
                  geneU[j', c'] == GeneConfCell(unperm, mins, maxes, confU, confD, j', c').value.0 &&
                  geneD[j', c'] == GeneConfCell(unperm, mins, maxes, confU, confD, j', c').value.1
      invariant !ok ==> exists j', c' :: (0 <= j' < numFeatures && 0 <= c' < n &&
                  GeneConfCell(unperm, mins, maxes, confU, confD, j', c').None?)
    {
      var c := 0;
      while c < n && ok
        invariant 0 <= c <= n
        invariant forall j' :: j <= j' < numFeatures ==> geneU[j', 0] == 0.0 && geneD[j', 0] == 0.0
        invariant ok ==> forall j', c' :: 0 <= j' < j && 0 <= c' < n ==>
                    GeneConfCell(unperm, mins, maxes, confU, confD, j', c').Some? &&
                    geneU[j', c'] == GeneConfCell(unperm, mins, maxes, confU, confD, j', c').value.0 &&
                    geneD[j', c'] == GeneConfCell(unperm, mins, maxes, confU, confD, j', c').value.1
        invariant ok ==> forall c' :: 0 <= c' < c ==>
                    GeneConfCell(unperm, mins, maxes, confU, confD, j, c').Some? &&
                    geneU[j, c'] == GeneConfCell(unperm, mins, maxes, confU, confD, j, c').value.0 &&
                    geneD[j, c'] == GeneConfCell(unperm, mins, maxes, confU, confD, j, c').value.1
        invariant !ok ==> exists j', c' :: (0 <= j' < numFeatures && 0 <= c' < n &&
                    GeneConfCell(unperm, mins, maxes, confU, confD, j', c').None?)
      {
        if c != 0 {
          var cell := CellConf(unperm[j][c], mins[c], maxes[c], confU[c], confD[c], numBins);
          if cell.None? {
            assert GeneConfCell(unperm, mins, maxes, confU, confD, j, c).None?;
            ok := false;
          } else {
            geneU[j, c] := cell.value.0;
            geneD[j, c] := cell.value.1;
          }
        }
        c := c + 1;
      }
      j := j + 1;
    }
  }

  /** Column j of a (features x conditions) table. */
  function Column(t: seq<seq<real>>, j: nat, cols: nat): (r: seq<real>)
    requires Rect(t, |t|, cols) && j < cols
    ensures |r| == |t| && forall g :: 0 <= g < |t| ==> r[g] == t[g][j]
  {
    seq(|t|, g requires 0 <= g < |t| => t[g][j])
  }

  /** `get_count_by_conf_level(gene_conf, ranges)`: for each tuning parameter i,
      condition j and level k, the number of features whose score is strictly
      greater than the level. */
  method GetCountByConfLevel(geneConf: seq<seq<seq<real>>>, numGenes: nat, numConditions: nat, ranges: seq<real>)
    returns (counts: array3<int>)
    requires Box(geneConf, |geneConf|, numGenes, numConditions)
    ensures fresh(counts)
    ensures counts.Length0 == |geneConf| && counts.Length1 == numConditions && counts.Length2 == |ranges|
    ensures forall i, j, k :: 0 <= i < |geneConf| && 0 <= j < numConditions && 0 <= k < |ranges| ==>
              counts[i, j, k] == CountAbove(Column(geneConf[i], j, numConditions), ranges[k])
  {
    var s := |geneConf|;
    counts := new int[s, numConditions, |ranges|]((i, j, k) => 0);
    for i := 0 to s
      invariant forall i', j, k :: 0 <= i' < i && 0 <= j < numConditions && 0 <= k < |ranges| ==>
                  counts[i', j, k] == CountAbove(Column(geneConf[i'], j, numConditions), ranges[k])
    {
      for j := 0 to numConditions
        invariant forall i', j', k :: 0 <= i' < i && 0 <= j' < numConditions && 0 <= k < |ranges| ==>
                    counts[i', j', k] == CountAbove(Column(geneConf[i'], j', numConditions), ranges[k])
        invariant forall j', k :: 0 <= j' < j && 0 <= k < |ranges| ==>
                    counts[i, j', k] == CountAbove(Column(geneConf[i], j', numConditions), ranges[k])
      {
        WriteCounts(counts, i, j, Column(geneConf[i], j, numConditions), ranges);
      }
    }
  }

  /** Fills counts[i, j, ..] with the per-level counts of one column. */
  method WriteCounts(counts: array3<int>, i: nat, j: nat, col: seq<real>, ranges: seq<real>)
    requires i < counts.Length0 && j < counts.Length1 && counts.Length2 == |ranges|
    modifies counts
    ensures forall k :: 0 <= k < |ranges| ==> counts[i, j, k] == CountAbove(col, ranges[k])
    ensures forall i', j', k ::
              (0 <= i' < counts.Length0 && 0 <= j' < counts.Length1 && 0 <= k < counts.Length2 && (i' != i || j' != j))
              ==> counts[i', j', k] == old(counts[i', j', k])
  {
    for k := 0 to |ranges|
      invariant forall k' :: 0 <= k' < k ==> counts[i, j, k'] == CountAbove(col, ranges[k'])
      invariant forall i', j', k' ::
                  (0 <= i' < counts.Length0 && 0 <= j' < counts.Length1 && 0 <= k' < counts.Length2 && (i' != i || j' != j))
                  ==> counts[i', j', k'] == old(counts[i', j', k'])
    {
      counts[i, j, k] := CountAbove(col, ranges[k]);
    }
  }

  /** A higher level never counts more features, and no level counts more than all. */
  lemma {:induction false} CountAboveAntitone(s: seq<real>, lo: real, hi: real)
    requires lo <= hi
    ensures CountAbove(s, hi) <= CountAbove(s, lo) <= |s|
  {
    if |s| > 0 { CountAboveAntitone(s[..|s| - 1], lo, hi); }
  }

  /** `np.argmax`: the first index of a maximum. */
  function ArgMax(s: seq<real>): (k: nat)
    requires |s| > 0
    ensures k < |s|
    ensures forall i :: 0 <= i < |s| ==> s[i] <= s[k]
    ensures forall i :: 0 <= i < k ==> s[i] < s[k]
  {
    if |s| == 1 then 0
    else
      var k := ArgMax(s[..|s| - 1]);
      if s[|s| - 1] > s[k] then |s| - 1 else k
  }

  /** The values of one (condition, level) cell across the tuning parameters. */
  function TuningColumn(t: seq<seq<seq<real>>>, c: nat, i: nat, n: nat, levels: nat): (r: seq<real>)
    requires Box(t, |t|, n, levels) && c < n && i < levels
    ensures |r| == |t| && forall k :: 0 <= k < |t| ==> r[k] == t[k][c][i]
  {
    seq(|t|, k requires 0 <= k < |t| => t[k][c][i])
  }

  /** The largest value of a non-empty column, read at `np.argmax`. */
  function Best(col: seq<real>): real
    requires |col| > 0
  {
    col[ArgMax(col)]
  }

  /** Entry (c, i, x) of `breakdown_tables`: zero for condition 0; otherwise the
      level, then the best up count, then the best down count over the tuning
      parameters. */
  function BreakdownCell(levels: seq<real>, uByConf: seq<seq<seq<real>>>, dByConf: seq<seq<seq<real>>>,
                         n: nat, c: nat, i: nat, x: nat): real
    requires |uByConf| > 0 && Box(uByConf, |uByConf|, n, |levels|) && Box(dByConf, |uByConf|, n, |levels|)
    requires c < n && i < |levels| && x < 3
  {
    if c == 0 then 0.0
    else if x == 0 then levels[i]
    else if x == 1 then Best(TuningColumn(uByConf, c, i, n, |levels|))
    else Best(TuningColumn(dByConf, c, i, n, |levels|))
  }

  /** The count columns of a breakdown row are the maxima over the tuning parameters. */
  lemma BreakdownCellIsBest(levels: seq<real>, uByConf: seq<seq<seq<real>>>, dByConf: seq<seq<seq<real>>>,
                            n: nat, c: nat, i: nat)
    requires |uByConf| > 0 && Box(uByConf, |uByConf|, n, |levels|) && Box(dByConf, |uByConf|, n, |levels|)
    requires 1 <= c < n && i < |levels|
    ensures BreakdownCell(levels, uByConf, dByConf, n, c, i, 0) == levels[i]
    ensures forall k :: 0 <= k < |uByConf| ==> uByConf[k][c][i] <= BreakdownCell(levels, uByConf, dByConf, n, c, i, 1)
    ensures exists k :: 0 <= k < |uByConf| && uByConf[k][c][i] == BreakdownCell(levels, uByConf, dByConf, n, c, i, 1)
    ensures forall k :: 0 <= k < |dByConf| ==> dByConf[k][c][i] <= BreakdownCell(levels, uByConf, dByConf, n, c, i, 2)
    ensures exists k :: 0 <= k < |dByConf| && dByConf[k][c][i] == BreakdownCell(levels, uByConf, dByConf, n, c, i, 2)
  {
    var colU := TuningColumn(uByConf, c, i, n, |levels|);
    var colD := TuningColumn(dByConf, c, i, n, |levels|);
    var ku := ArgMax(colU);
    var kd := ArgMax(colD);
    assert uByConf[ku][c][i] == BreakdownCell(levels, uByConf, dByConf, n, c, i, 1);
    assert dByConf[kd][c][i] == BreakdownCell(levels, uByConf, dByConf, n, c, i, 2);
  }

  /** Fills the rows of condition c of the breakdown table and leaves the other
      conditions alone. */
  method WriteBreakdownRow(levels: seq<real>, uByConf: seq<seq<seq<real>>>, dByConf: seq<seq<seq<real>>>,
                           n: nat, c: nat, breakdown: array3<real>)
    requires |uByConf| > 0 && Box(uByConf, |uByConf|, n, |levels|) && Box(dByConf, |uByConf|, n, |levels|)
    requires 1 <= c < n
    requires breakdown.Length0 == n && breakdown.Length1 == |levels| && breakdown.Length2 == 3
    modifies breakdown
    ensures forall i, x :: 0 <= i < |levels| && 0 <= x < 3 ==>
              breakdown[c, i, x] == BreakdownCell(levels, uByConf, dByConf, n, c, i, x)
    ensures forall c', i, x :: 0 <= c' < n && c' != c && 0 <= i < |levels| && 0 <= x < 3 ==>
              breakdown[c', i, x] == old(breakdown[c', i, x])
  {
    for i := 0 to |levels|
      invariant forall i', x :: 0 <= i' < i && 0 <= x < 3 ==>
                  breakdown[c, i', x] == BreakdownCell(levels, uByConf, dByConf, n, c, i', x)
      invariant forall c', i', x :: 0 <= c' < n && c' != c && 0 <= i' < |levels| && 0 <= x < 3 ==>
                  breakdown[c', i', x] == old(breakdown[c', i', x])
    {
      var level, up, down := levels[i], Best(TuningColumn(uByConf, c, i, n, |levels|)),
                               Best(TuningColumn(dByConf, c, i, n, |levels|));
      assert level == BreakdownCell(levels, uByConf, dByConf, n, c, i, 0);
      assert up == BreakdownCell(levels, uByConf, dByConf, n, c, i, 1);
      assert down == BreakdownCell(levels, uByConf, dByConf, n, c, i, 2);
      SetTriple(breakdown, c, i, level, up, down);
    }
  }

  /** Stores the three entries of cell (c, i) and nothing else. */
  method SetTriple(a: array3<real>, c: nat, i: nat, x0: real, x1: real, x2: real)
    requires c < a.Length0 && i < a.Length1 && a.Length2 == 3
    modifies a
    ensures a[c, i, 0] == x0 && a[c, i, 1] == x1 && a[c, i, 2] == x2
    ensures forall c', i', x :: 0 <= c' < a.Length0 && 0 <= i' < a.Length1 && 0 <= x < 3 && (c', i') != (c, i) ==>
              a[c', i', x] == old(a[c', i', x])
  {
    a[c, i, 0] := x0;
    a[c, i, 1] := x1;
    a[c, i, 2] := x2;
  }

  /** `breakdown_tables(levels, u_by_conf, d_by_conf)`: the (conditions x levels x 3)
      summary, filled for every condition but 0. */
  method BreakdownTables(levels: seq<real>, uByConf: seq<seq<seq<real>>>, dByConf: seq<seq<seq<real>>>, n: nat)
    returns (breakdown: array3<real>)
    requires |uByConf| > 0 && Box(uByConf, |uByConf|, n, |levels|) && Box(dByConf, |uByConf|, n, |levels|)
    ensures fresh(breakdown)
    ensures breakdown.Length0 == n && breakdown.Length1 == |levels| && breakdown.Length2 == 3
    ensures forall c, i, x :: 0 <= c < n && 0 <= i < |levels| && 0 <= x < 3 ==>
              breakdown[c, i, x] == BreakdownCell(levels, uByConf, dByConf, n, c, i, x)
  {
    var numLevels := |levels|;
    breakdown := new real[n, numLevels, 3]((c, i, x) => 0.0);
    if n == 0 {
      return;
    }
    for c := 1 to n
      invariant forall c', i, x :: 0 <= c' < c && 0 <= i < numLevels && 0 <= x < 3 ==>
                  breakdown[c', i, x] == BreakdownCell(levels, uByConf, dByConf, n, c', i, x)
    {
      WriteBreakdownRow(levels, uByConf, dByConf, n, c, breakdown);
    }
  }
}
