/** The histogram and confidence-score pipeline of the original scorer
    (python/page/core.py): bin edges, up/down histograms, cumulative-from-above
    counts, the per-bin score, its monotone repair, the per-feature lookup and the
    per-level summary tables. */
module PageBins {
  import opened Sequences
  import opened BiasCorrection
  import opened Wrappers

  /** A bin edge: a finite value, or the trailing `np.inf`. */
  datatype Edge = Finite(x: real) | PosInf

  /** `e <= v` for a finite value v. */
  predicate EdgeAtMost(e: Edge, v: real)
  {
    e.Finite? && e.x <= v
  }

  predicate EdgeLe(a: Edge, b: Edge)
  {
    b.PosInf? || (a.Finite? && a.x <= b.x)
  }

  /** numpy's acceptance test for bin edges: no edge exceeds its successor. */
  predicate Monotone(edges: seq<Edge>)
  {
    forall i :: 0 <= i < |edges| - 1 ==> EdgeLe(edges[i], edges[i + 1])
  }

  /** Entry i of `np.linspace(0, maxval, n)`, computed exactly. */
  function LinspaceAt(maxval: real, n: nat, i: nat): real
  {
    if n == 1 then 0.0 else maxval * (i as real) / ((n - 1) as real)
  }

  /** `get_bins(n, maxval)`: the n values of `np.linspace(0, maxval, n)`, then +inf. */
  function GetBins(n: nat, maxval: real): (r: seq<Edge>)
    ensures |r| == n + 1
  {
    seq(n + 1, i requires 0 <= i <= n => if i < n then Finite(LinspaceAt(maxval, n, i)) else PosInf)
  }

  lemma GetBinsShape(n: nat, maxval: real)
    ensures GetBins(n, maxval)[n] == PosInf
    ensures n >= 1 ==> GetBins(n, maxval)[0] == Finite(0.0)
    ensures n >= 2 ==> GetBins(n, maxval)[n - 1] == Finite(maxval)
    ensures forall i :: 0 <= i < n ==> GetBins(n, maxval)[i].Finite?
  {
    if n >= 2 {
      var d := (n - 1) as real;
      assert GetBins(n, maxval)[n - 1] == Finite(maxval * d / d);
      assert maxval * d / d == maxval;
    }
  }

  /** Consecutive finite edges are maxval / (n - 1) apart. */
  lemma GetBinsEvenlySpaced(n: nat, maxval: real, i: nat)
    requires n >= 2 && i + 1 < n
    ensures GetBins(n, maxval)[i + 1].x - GetBins(n, maxval)[i].x == maxval / ((n - 1) as real)
  {
    var d := (n - 1) as real;
    assert GetBins(n, maxval)[i + 1].x == maxval * ((i + 1) as real) / d;
    assert GetBins(n, maxval)[i].x == maxval * (i as real) / d;
    var lo := maxval * (i as real);
    assert maxval * ((i + 1) as real) == lo + maxval;
    assert (lo + maxval) / d == lo / d + maxval / d;
  }

  /** The edges pass numpy's monotonicity test exactly when maxval >= 0 or there
      is at most one finite edge. */
  lemma GetBinsMonotone(n: nat, maxval: real)
    ensures Monotone(GetBins(n, maxval)) <==> (n <= 1 || maxval >= 0.0)
  {
    var e := GetBins(n, maxval);
    if n >= 2 {
      if maxval >= 0.0 {
        forall i | 0 <= i < |e| - 1 ensures EdgeLe(e[i], e[i + 1]) {
          if i + 1 < n { GetBinsEvenlySpaced(n, maxval, i); }
        }
      } else {
        GetBinsEvenlySpaced(n, maxval, 0);
        assert !EdgeLe(e[0], e[1]);
      }
    }
  }

  /** Python's `bisect_right` on a sorted list: the length of the leading run of
      edges that are <= v. */
  function BisectRight(edges: seq<Edge>, v: real): (k: nat)
    ensures k <= |edges|
  {
    if |edges| == 0 || !EdgeAtMost(edges[0], v) then 0 else 1 + BisectRight(edges[1..], v)
  }

  /** On monotone edges, `BisectRight(edges, v) - 1` is the bin holding v: every
      edge before it is <= v and every edge after it is > v. */
  lemma {:induction false} BisectRightSplits(edges: seq<Edge>, v: real)
    requires Monotone(edges)
    ensures forall i :: 0 <= i < BisectRight(edges, v) ==> EdgeAtMost(edges[i], v)
    ensures forall i :: BisectRight(edges, v) <= i < |edges| ==> !EdgeAtMost(edges[i], v)
  {
    if |edges| > 0 && EdgeAtMost(edges[0], v) {
      BisectRightSplits(edges[1..], v);
    } else if |edges| > 0 {
      forall i | 0 <= i < |edges| ensures !EdgeAtMost(edges[i], v) {
        MonotoneFrom(edges, 0, i);
      }
    }
  }

  lemma {:induction false} MonotoneFrom(edges: seq<Edge>, i: nat, j: nat)
    requires Monotone(edges) && i <= j < |edges|
    ensures EdgeLe(edges[i], edges[j])
  {
    if i < j {
      MonotoneFrom(edges, i, j - 1);
    }
  }

  /** The bin numpy's histogram puts v in (may be -1 or |edges| - 1: out of range). */
  function BinOf(v: real, edges: seq<Edge>): int
  {
    BisectRight(edges, v) - 1
  }

  /** Adds one to bin b when b is a valid bin. */
  function Tally(h: seq<int>, b: int): (r: seq<int>)
    ensures |r| == |h|
  {
    if 0 <= b < |h| then h[b := h[b] + 1] else h
  }

  /** `np.histogram(vals, edges)[0]` for monotone edges: |edges| - 1 counts. */
  function Histogram(vals: seq<real>, edges: seq<Edge>): (h: seq<int>)
    requires |edges| >= 1
    ensures |h| == |edges| - 1
  {
    if |vals| == 0 then Zeros(|edges| - 1)
    else Tally(Histogram(vals[..|vals| - 1], edges), BinOf(vals[|vals| - 1], edges))
  }

  /** v lies in bin k: edges[k] <= v < edges[k + 1]. */
  predicate InBin(v: real, edges: seq<Edge>, k: nat)
    requires k + 1 < |edges|
  {
    EdgeAtMost(edges[k], v) && !EdgeAtMost(edges[k + 1], v)
  }

  /** The number of values lying in bin k. */
  function CountInBin(vals: seq<real>, edges: seq<Edge>, k: nat): (c: nat)
    requires k + 1 < |edges|
    ensures c <= |vals|
  {
    if |vals| == 0 then 0
    else CountInBin(vals[..|vals| - 1], edges, k) + (if InBin(vals[|vals| - 1], edges, k) then 1 else 0)
  }

  /** On monotone edges, the bin numpy picks for v is k exactly when v lies in bin k. */
  lemma BinOfInBin(v: real, edges: seq<Edge>, k: nat)
    requires Monotone(edges) && k + 1 < |edges|
    ensures BinOf(v, edges) == k <==> InBin(v, edges, k)
  {
    BisectRightSplits(edges, v);
  }

  /** Count k of the histogram is the number of values in bin k. */
  lemma {:induction false} HistogramBinCount(vals: seq<real>, edges: seq<Edge>, k: nat)
    requires Monotone(edges) && k + 1 < |edges|
    ensures Histogram(vals, edges)[k] == CountInBin(vals, edges, k)
  {
    if |vals| > 0 {
      HistogramBinCount(vals[..|vals| - 1], edges, k);
      BinOfInBin(vals[|vals| - 1], edges, k);
    }
  }

  lemma SumTally(h: seq<int>, b: int)
    ensures SumInt(Tally(h, b)) == SumInt(h) + (if 0 <= b < |h| then 1 else 0)
  {
    if 0 <= b < |h| {
      SumUpdate(h, b, 1);
      assert Tally(h, b) == h[b := h[b] + 1];
    } else {
      assert Tally(h, b) == h;
    }
  }

  lemma {:induction false} SumUpdate(h: seq<int>, b: nat, k: int)
    requires b < |h|
    ensures SumInt(h[b := h[b] + k]) == SumInt(h) + k
  {
    var n := |h|;
    var h' := h[b := h[b] + k];
    if b == n - 1 {
      assert h'[..n - 1] == h[..n - 1];
    } else {
      assert h'[..n - 1] == h[..n - 1][b := h[b] + k];
      SumUpdate(h[..n - 1], b, k);
    }
  }

  lemma {:induction false} HistogramNonNegative(vals: seq<real>, edges: seq<Edge>)
    requires |edges| >= 1
    ensures forall b :: 0 <= b < |edges| - 1 ==> Histogram(vals, edges)[b] >= 0
  {
    if |vals| > 0 { HistogramNonNegative(vals[..|vals| - 1], edges); }
  }

  /** Edges from 0 up to +inf catch exactly the non-negative values. */
  lemma {:induction false} HistogramTotal(vals: seq<real>, edges: seq<Edge>)
    requires |edges| >= 2 && edges[0] == Finite(0.0) && edges[|edges| - 1] == PosInf
    ensures SumInt(Histogram(vals, edges)) == CountAtLeast(vals, 0.0)
  {
    if |vals| == 0 {
      SumZeros(|edges| - 1);
    } else {
      var v := vals[|vals| - 1];
      HistogramTotal(vals[..|vals| - 1], edges);
      SumTally(Histogram(vals[..|vals| - 1], edges), BinOf(v, edges));
      BisectRightBelowInf(edges, v);
    }
  }

  lemma {:induction false} BisectRightBelowInf(edges: seq<Edge>, v: real)
    requires |edges| >= 1 && edges[|edges| - 1] == PosInf
    ensures BisectRight(edges, v) < |edges|
    ensures BisectRight(edges, v) >= 1 <==> EdgeAtMost(edges[0], v)
  {
    if |edges| > 1 && EdgeAtMost(edges[0], v) {
      BisectRightBelowInf(edges[1..], v);
    }
  }

  function Negated(vals: seq<real>): (r: seq<real>)
    ensures |r| == |vals| && forall i :: 0 <= i < |vals| ==> r[i] == -vals[i]
  {
    seq(|vals|, i requires 0 <= i < |vals| => -vals[i])
  }

  lemma {:induction false} CountNegated(vals: seq<real>)
    ensures CountAtLeast(Negated(vals), 0.0) == CountAtMost(vals, 0.0)
  {
    if |vals| > 0 {
      assert Negated(vals)[..|vals| - 1] == Negated(vals[..|vals| - 1]);
      CountNegated(vals[..|vals| - 1]);
    }
  }

  /** `assign_bins`: the up histogram of vals and the down histogram of -vals, each
      over num_bins + 1 bins; negatives are folded into up-bin 0 and positives into
      down-bin 0. None where numpy rejects the edges (a negative maximum). */
  function AssignBins(vals: seq<real>, numBins: nat, minval: real, maxval: real)
    : Option<(seq<int>, seq<int>)>
  {
    var uEdges := GetBins(numBins + 1, maxval);
    var dEdges := GetBins(numBins + 1, -minval);
    if !Monotone(uEdges) || !Monotone(dEdges) then None
    else
      var u := Histogram(vals, uEdges);
      var d := Histogram(Negated(vals), dEdges);
      Some((u[0 := u[0] + CountBelow(vals, 0.0)],
            d[0 := d[0] + CountAbove(vals, 0.0)]))
  }

  /** assign_bins succeeds exactly when both edge lists are monotone. */
  lemma AssignBinsDefined(vals: seq<real>, numBins: nat, minval: real, maxval: real)
    ensures AssignBins(vals, numBins, minval, maxval).Some?
            <==> (numBins == 0 || (maxval >= 0.0 && minval <= 0.0))
  {
    GetBinsMonotone(numBins + 1, maxval);
    GetBinsMonotone(numBins + 1, -minval);
  }

  /** Each histogram has num_bins + 1 non-negative bins and accounts for every value once. */
  lemma AssignBinsTotals(vals: seq<real>, numBins: nat, minval: real, maxval: real)
    requires AssignBins(vals, numBins, minval, maxval).Some?
    ensures var (u, d) := AssignBins(vals, numBins, minval, maxval).value;
      |u| == numBins + 1 && |d| == numBins + 1 &&
      (forall b :: 0 <= b <= numBins ==> u[b] >= 0 && d[b] >= 0) &&
      SumInt(u) == |vals| && SumInt(d) == |vals|
  {
    var uEdges := GetBins(numBins + 1, maxval);
    var dEdges := GetBins(numBins + 1, -minval);
    GetBinsShape(numBins + 1, maxval);
    GetBinsShape(numBins + 1, -minval);
    var u := Histogram(vals, uEdges);
    var d := Histogram(Negated(vals), dEdges);
    HistogramNonNegative(vals, uEdges);
    HistogramNonNegative(Negated(vals), dEdges);
    HistogramTotal(vals, uEdges);
    HistogramTotal(Negated(vals), dEdges);
    CountNegated(vals);
    CountBelowSplit(vals, 0.0);
    CountAboveSplit(vals, 0.0);
    SumUpdate(u, 0, CountBelow(vals, 0.0));
    SumUpdate(d, 0, CountAbove(vals, 0.0));
  }

  /** numpy's `cumsum`: running totals. */
  function CumSum(s: seq<int>, acc: int): (r: seq<int>)
    ensures |r| == |s|
  {
    if |s| == 0 then [] else [acc + s[0]] + CumSum(s[1..], acc + s[0])
  }

  lemma {:induction false} CumSumAt(s: seq<int>, acc: int, i: nat)
    requires i < |s|
    ensures CumSum(s, acc)[i] == acc + SumInt(s[..i + 1])
  {
    if i == 0 {
      assert s[..1] == [s[0]];
      assert SumInt([s[0]]) == SumInt([s[0]][..0]) + s[0];
    } else {
      CumSumAt(s[1..], acc + s[0], i - 1);
      assert s[..i + 1] == [s[0]] + s[1..][..i];
      SumIntCons(s[0], s[1..][..i]);
    }
  }

  /** `accumulate_bins`: `np.cumsum(bins[::-1])[::-1]`. */
  function AccumulateBins(bins: seq<int>): (r: seq<int>)
    ensures |r| == |bins|
  {
    Reverse(CumSum(Reverse(bins), 0))
  }

  /** The reversed cumulative sum is the "count at or above bin i" histogram. */
  lemma AccumulateBinsAt(bins: seq<int>, i: nat)
    requires i < |bins|
    ensures AccumulateBins(bins)[i] == SumInt(bins[i..])
  {
    var n := |bins|;
    var rb := Reverse(bins);
    CumSumAt(rb, 0, n - 1 - i);
    assert Reverse(rb[..n - i]) == bins[i..];
    ReverseSum(rb[..n - i]);
  }

  lemma {:induction false} ReverseSum(s: seq<int>)
    ensures SumInt(Reverse(s)) == SumInt(s)
  {
    if |s| > 0 {
      assert Reverse(s) == [s[|s| - 1]] + Reverse(s[..|s| - 1]);
      SumIntCons(s[|s| - 1], Reverse(s[..|s| - 1]));
      ReverseSum(s[..|s| - 1]);
    }
  }

  lemma AccumulateBinsStep(bins: seq<int>, i: nat)
    requires i + 1 < |bins|
    ensures AccumulateBins(bins)[i] == bins[i] + AccumulateBins(bins)[i + 1]
  {
    AccumulateBinsAt(bins, i);
    AccumulateBinsAt(bins, i + 1);
    assert bins[i..] == [bins[i]] + bins[i + 1..];
    SumIntCons(bins[i], bins[i + 1..]);
  }

  /** First entry is the total, last entry is the last bin, consecutive entries
      differ by one bin, and non-negative bins give a non-increasing result. */
  lemma AccumulateBinsProperties(bins: seq<int>)
    requires |bins| > 0
    ensures AccumulateBins(bins)[0] == SumInt(bins)
    ensures AccumulateBins(bins)[|bins| - 1] == bins[|bins| - 1]
    ensures forall i :: 0 <= i < |bins| - 1 ==>
              AccumulateBins(bins)[i] == bins[i] + AccumulateBins(bins)[i + 1]
  {
    var n := |bins|;
    AccumulateBinsAt(bins, 0);
    assert bins[0..] == bins;
    AccumulateBinsAt(bins, n - 1);
    assert bins[n - 1..] == [bins[n - 1]];
    assert SumInt([bins[n - 1]]) == SumInt([bins[n - 1]][..0]) + bins[n - 1];
    forall i | 0 <= i < n - 1
      ensures AccumulateBins(bins)[i] == bins[i] + AccumulateBins(bins)[i + 1]
    {
      AccumulateBinsStep(bins, i);
    }
  }

  /** Non-negative bins give a non-negative, non-increasing "count at or above". */
  lemma AccumulateBinsNonIncreasing(bins: seq<int>)
    requires forall i :: 0 <= i < |bins| ==> bins[i] >= 0
    ensures forall i, j :: 0 <= i <= j < |bins| ==>
              AccumulateBins(bins)[i] >= AccumulateBins(bins)[j] >= 0
  {
    if |bins| > 0 {
      AccumulateBinsProperties(bins);
      var a := AccumulateBins(bins);
      forall i, j | 0 <= i <= j < |bins| ensures a[i] >= a[j] >= 0 {
        AccumulateDescends(bins, a, i, j);
      }
    }
  }

  lemma {:induction false} AccumulateDescends(bins: seq<int>, a: seq<int>, i: nat, j: nat)
    requires |a| == |bins| && i <= j < |bins|
    requires forall k :: 0 <= k < |bins| ==> bins[k] >= 0
    requires forall k :: 0 <= k < |bins| - 1 ==> a[k] == bins[k] + a[k + 1]
    requires a[|bins| - 1] == bins[|bins| - 1]
    ensures a[i] >= a[j] >= 0
    decreases |bins| - i + j - i
  {
    if i < j {
      AccumulateDescends(bins, a, i + 1, j);
    } else if j < |bins| - 1 {
      AccumulateDescends(bins, a, j + 1, j + 1);
    }
  }
}
