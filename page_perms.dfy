/** The permutation half of the original scorer (python/page/core.py): every
    k-subset of a set as a boolean mask, in `itertools.combinations` order, the
    mask table per condition, and the mean permuted "count at or above" tables. */
module PagePerms {
  import opened Sequences
  import opened Wrappers
  import opened PageBins

  /** `itertools.combinations(range(lo, n), k)`: lexicographic order, each
      combination as an increasing list. */
  function Combinations(lo: nat, n: nat, k: nat): seq<seq<nat>>
    decreases n - lo
  {
    if k == 0 then [[]]
    else if lo >= n then []
    else Prefixed(lo, Combinations(lo + 1, n, k - 1)) + Combinations(lo + 1, n, k)
  }

  /** Every list of `ss` with `x` put in front. */
  function Prefixed(x: nat, ss: seq<seq<nat>>): (r: seq<seq<nat>>)
    ensures |r| == |ss| && forall i :: 0 <= i < |ss| ==> r[i] == [x] + ss[i]
  {
    if |ss| == 0 then [] else Prefixed(x, ss[..|ss| - 1]) + [[x] + ss[|ss| - 1]]
  }

  /** A k-combination of {lo, ..., n-1}: k strictly increasing values in range. */
  predicate IsCombination(c: seq<nat>, lo: nat, n: nat, k: nat)
  {
    |c| == k &&
    (forall i :: 0 <= i < |c| ==> lo <= c[i] < n) &&
    (forall i, j :: 0 <= i < j < |c| ==> c[i] < c[j])
  }

  /** Every listed entry is a k-combination. */
  lemma {:induction false} CombinationsSound(lo: nat, n: nat, k: nat)
    ensures forall i :: 0 <= i < |Combinations(lo, n, k)| ==> IsCombination(Combinations(lo, n, k)[i], lo, n, k)
    decreases n - lo
  {
    if k > 0 && lo < n {
      var first := Combinations(lo + 1, n, k - 1);
      var rest := Combinations(lo + 1, n, k);
      var all := Combinations(lo, n, k);
      assert all == Prefixed(lo, first) + rest;
      CombinationsSound(lo + 1, n, k - 1);
      CombinationsSound(lo + 1, n, k);
      forall i | 0 <= i < |all| ensures IsCombination(all[i], lo, n, k) {
        if i < |first| {
          var t := first[i];
          assert IsCombination(t, lo + 1, n, k - 1);
          assert all[i] == [lo] + t;
          PrependCombination(lo, t, n, k - 1);
        } else {
          assert all[i] == rest[i - |first|];
        }
      }
    }
  }

  lemma PrependCombination(lo: nat, t: seq<nat>, n: nat, k: nat)
    requires lo < n && IsCombination(t, lo + 1, n, k)
    ensures IsCombination([lo] + t, lo, n, k + 1)
  {
    var c := [lo] + t;
    forall i, j | 0 <= i < j < |c| ensures c[i] < c[j] {
      if i > 0 { assert c[i] == t[i - 1] && c[j] == t[j - 1]; }
      else { assert c[j] == t[j - 1]; }
    }
  }

  /** Every k-combination is listed. */
  lemma {:induction false} CombinationsComplete(lo: nat, n: nat, k: nat, c: seq<nat>)
    requires IsCombination(c, lo, n, k)
    ensures c in Combinations(lo, n, k)
    decreases n - lo
  {
    if k == 0 {
      assert c == [];
    } else {
      assert lo <= c[0] < n;
      var first := Combinations(lo + 1, n, k - 1);
      var rest := Combinations(lo + 1, n, k);
      assert Combinations(lo, n, k) == Prefixed(lo, first) + rest;
      if c[0] == lo {
        var tail := c[1..];
        TailCombination(c, lo, n, k);
        CombinationsComplete(lo + 1, n, k - 1, tail);
        var i :| 0 <= i < |first| && first[i] == tail;
        assert c == [lo] + tail;
        assert Prefixed(lo, first)[i] == c;
      } else {
        RaiseCombination(c, lo, n, k);
        CombinationsComplete(lo + 1, n, k, c);
      }
    }
  }

  lemma TailCombination(c: seq<nat>, lo: nat, n: nat, k: nat)
    requires k > 0 && IsCombination(c, lo, n, k) && c[0] == lo
    ensures IsCombination(c[1..], lo + 1, n, k - 1)
  {
    var tail := c[1..];
    forall i | 0 <= i < |tail| ensures lo + 1 <= tail[i] < n {
      assert c[0] < c[i + 1];
    }
    forall i, j | 0 <= i < j < |tail| ensures tail[i] < tail[j] {
      assert c[i + 1] < c[j + 1];
    }
  }

  lemma RaiseCombination(c: seq<nat>, lo: nat, n: nat, k: nat)
    requires k > 0 && IsCombination(c, lo, n, k) && c[0] != lo
    ensures IsCombination(c, lo + 1, n, k)
  {
    forall i | 0 <= i < |c| ensures lo + 1 <= c[i] {
      if i > 0 { assert c[0] < c[i]; }
    }
  }

  /** The enumeration lists exactly the k-combinations. */
  lemma CombinationsMembership(lo: nat, n: nat, k: nat, c: seq<nat>)
    ensures c in Combinations(lo, n, k) <==> IsCombination(c, lo, n, k)
  {
    CombinationsSound(lo, n, k);
    if IsCombination(c, lo, n, k) { CombinationsComplete(lo, n, k, c); }
  }

  /** Strict lexicographic order on lists. */
  predicate LexLess(a: seq<nat>, b: seq<nat>)
  {
    |a| > 0 && |b| > 0 && (a[0] < b[0] || (a[0] == b[0] && LexLess(a[1..], b[1..])))
  }

  /** The enumeration is strictly increasing in lexicographic order (so it has no repeats). */
  lemma {:induction false} CombinationsSorted(lo: nat, n: nat, k: nat)
    ensures forall i, j :: 0 <= i < j < |Combinations(lo, n, k)| ==>
              LexLess(Combinations(lo, n, k)[i], Combinations(lo, n, k)[j])
    decreases n - lo
  {
    if k > 0 && lo < n {
      var first := Combinations(lo + 1, n, k - 1);
      var rest := Combinations(lo + 1, n, k);
      var all := Combinations(lo, n, k);
      assert all == Prefixed(lo, first) + rest;
      CombinationsSorted(lo + 1, n, k - 1);
      CombinationsSorted(lo + 1, n, k);
      forall i, j | 0 <= i < j < |all| ensures LexLess(all[i], all[j]) {
        if j < |first| {
          assert all[i] == [lo] + first[i] && all[j] == [lo] + first[j];
          assert all[i][1..] == first[i] && all[j][1..] == first[j];
        } else if i < |first| {
          assert all[i] == [lo] + first[i];
          assert all[j] == rest[j - |first|];
          CombinationsMembership(lo + 1, n, k, rest[j - |first|]);
        } else {
          assert all[i] == rest[i - |first|] && all[j] == rest[j - |first|];
        }
      }
    }
  }

  /** Pascal's rule for the binomial coefficient. */
  function Binom(m: nat, k: nat): nat
  {
    if k == 0 then 1 else if m == 0 then 0 else Binom(m - 1, k - 1) + Binom(m - 1, k)
  }

  lemma {:induction false} BinomPositive(m: nat, k: nat)
    requires k <= m
    ensures Binom(m, k) >= 1
  {
    if k > 0 { BinomPositive(m - 1, k - 1); }
  }

  /** There are C(n - lo, k) combinations. */
  lemma {:induction false} CombinationsCount(lo: nat, n: nat, k: nat)
    requires lo <= n
    ensures |Combinations(lo, n, k)| == Binom(n - lo, k)
    decreases n - lo
  {
    if k > 0 && lo < n {
      CombinationsCount(lo + 1, n, k - 1);
      CombinationsCount(lo + 1, n, k);
    }
  }

  /** Row of `all_subsets`: True exactly at the members of the combination. */
  function Mask(c: seq<nat>, n: nat): (r: seq<bool>)
    ensures |r| == n && forall j :: 0 <= j < n ==> r[j] == (j in c)
  {
    seq(n, j => j in c)
  }

  /** A mask has one True entry per member. */
  lemma {:induction false} MaskCount(c: seq<nat>, n: nat)
    requires forall i :: 0 <= i < |c| ==> c[i] < n
    requires forall i, j :: 0 <= i < j < |c| ==> c[i] < c[j]
    ensures CountTrue(Mask(c, n)) == |c|
  {
    if n > 0 {
      assert Mask(c, n)[..n - 1] == Mask(c, n - 1);
      if n - 1 in c {
        var last := |c| - 1;
        assert c[last] == n - 1 by {
          var i :| 0 <= i < |c| && c[i] == n - 1;
        }
        var c' := c[..last];
        assert Mask(c, n - 1) == Mask(c', n - 1) by {
          forall j | 0 <= j < n - 1 ensures (j in c) == (j in c') {
            if j in c {
              var i :| 0 <= i < |c| && c[i] == j;
              assert i < last;
              assert c'[i] == j;
            }
          }
        }
        assert forall i :: 0 <= i < |c'| ==> c'[i] < n - 1 by {
          forall i | 0 <= i < |c'| ensures c'[i] < n - 1 { assert c[i] < c[last]; }
        }
        MaskCount(c', n - 1);
      } else {
        assert forall i :: 0 <= i < |c| ==> c[i] < n - 1 by {
          forall i | 0 <= i < |c| ensures c[i] < n - 1 { assert c[i] != n - 1; }
        }
        MaskCount(c, n - 1);
      }
    }
  }

  /** The rows of `all_subsets(n, k)`. */
  function SubsetMasks(n: nat, k: nat): (r: seq<seq<bool>>)
    ensures |r| == |Combinations(0, n, k)|
    ensures forall i :: 0 <= i < |r| ==> r[i] == Mask(Combinations(0, n, k)[i], n)
  {
    var cs := Combinations(0, n, k);
    seq(|cs|, i requires 0 <= i < |cs| => Mask(cs[i], n))
  }

  /** C(n, k) rows of n entries, k of them True, each subset exactly once and in
      combinations order. */
  lemma SubsetMasksShape(n: nat, k: nat)
    ensures |SubsetMasks(n, k)| == Binom(n, k)
    ensures forall i :: 0 <= i < |SubsetMasks(n, k)| ==>
              |SubsetMasks(n, k)[i]| == n && CountTrue(SubsetMasks(n, k)[i]) == k
  {
    CombinationsCount(0, n, k);
    forall i | 0 <= i < |SubsetMasks(n, k)|
      ensures CountTrue(SubsetMasks(n, k)[i]) == k
    {
      var c := Combinations(0, n, k)[i];
      CombinationsMembership(0, n, k, c);
      MaskCount(c, n);
    }
  }

  /** The 2-combinations of range(3), in order. */
  lemma CombinationsExample()
    ensures Combinations(0, 3, 2) == [[0, 1], [0, 2], [1, 2]]
  {
    CombinationsExampleTail();
    PrefixedZero();
  }

  lemma PrefixedZero()
    ensures Prefixed(0, [[1], [2]]) == [[0, 1], [0, 2]]
  {
    PrefixedTwo(0, [1], [2]);
    assert [0] + [1] == [0, 1] && [0] + [2] == [0, 2];
  }

  lemma CombinationsExampleTail()
    ensures Combinations(1, 3, 1) == [[1], [2]]
    ensures Combinations(1, 3, 2) == [[1, 2]]
  {
    var c21 := Combinations(2, 3, 1);
    var p := Prefixed(2, Combinations(3, 3, 0));
    assert p[0] == [2];
    assert c21 == [[2]];
    var q := Prefixed(1, Combinations(2, 3, 0));
    assert q[0] == [1];
    assert Combinations(1, 3, 1) == [[1], [2]];
    var r := Prefixed(1, c21);
    assert r[0] == [1, 2];
    assert Combinations(2, 3, 2) == [];
  }

  lemma PrefixedOne(x: nat, a: seq<nat>)
    ensures Prefixed(x, [a]) == [[x] + a]
  {
    assert Prefixed(x, [a])[0] == [x] + a;
  }

  lemma PrefixedTwo(x: nat, a: seq<nat>, b: seq<nat>)
    ensures Prefixed(x, [a, b]) == [[x] + a, [x] + b]
  {
    assert Prefixed(x, [a, b])[0] == [x] + a;
    assert Prefixed(x, [a, b])[1] == [x] + b;
  }

  /** The documented example `all_subsets(3, 2)`. */
  lemma SubsetMasksExample()
    ensures SubsetMasks(3, 2) == [[true, true, false], [true, false, true], [false, true, true]]
  {
    CombinationsExample();
    var m := SubsetMasks(3, 2);
    MaskOfThree([0, 1]);
    MaskOfThree([0, 2]);
    MaskOfThree([1, 2]);
    assert m[0] == [true, true, false];
    assert m[1] == [true, false, true];
    assert m[2] == [false, true, true];
  }

  /** Helper of SubsetMasksExample: a mask over range(3), entry by entry. */
  lemma MaskOfThree(c: seq<nat>)
    ensures Mask(c, 3) == [0 in c, 1 in c, 2 in c]
  {
  }

  /** `all_subsets(8, 4)` has 70 rows. */
  lemma EightChooseFour()
    ensures |SubsetMasks(8, 4)| == 70
  {
    SubsetMasksShape(8, 4);
    PascalRow7();
  }

  /** Helpers of EightChooseFour: the binomial coefficients it needs. */
  lemma PascalRow5()
    ensures Binom(5, 1) == 5 && Binom(5, 2) == 10 && Binom(5, 3) == 10 && Binom(5, 4) == 5
  {
  }

  lemma PascalRow7()
    ensures Binom(7, 3) == 35 && Binom(7, 4) == 35
  {
    PascalRow5();
    assert Binom(6, 2) == 15 && Binom(6, 3) == 20 && Binom(6, 4) == 15;
  }

  /** `all_subsets(n, k)`: one boolean row per k-subset of range(n). */
  method AllSubsets(n: nat, k: nat) returns (result: array2<bool>)
    ensures fresh(result)
    ensures result.Length0 == |SubsetMasks(n, k)| && result.Length1 == n
    ensures forall i, j :: 0 <= i < result.Length0 && 0 <= j < n ==> result[i, j] == SubsetMasks(n, k)[i][j]
  {
    var combos := Combinations(0, n, k);
    CombinationsSound(0, n, k);
    result := new bool[|combos|, n]((i, j) => false);
    for i := 0 to |combos|
      invariant forall i', j :: 0 <= i' < i && 0 <= j < n ==> result[i', j] == (j in combos[i'])
      invariant forall i', j :: i <= i' < |combos| && 0 <= j < n ==> !result[i', j]
    {
      assert IsCombination(combos[i], 0, n, k);
      MarkRow(result, i, combos[i]);
    }
  }

  /** `result[i, subset] = True` on an all-False row i. */
  method MarkRow(result: array2<bool>, i: nat, subset: seq<nat>)
    requires i < result.Length0
    requires forall t :: 0 <= t < |subset| ==> subset[t] < result.Length1
    requires forall j :: 0 <= j < result.Length1 ==> !result[i, j]
    modifies result
    ensures forall j :: 0 <= j < result.Length1 ==> result[i, j] == (j in subset)
    ensures forall i', j :: 0 <= i' < result.Length0 && i' != i && 0 <= j < result.Length1 ==>
              result[i', j] == old(result[i', j])
  {
    for t := 0 to |subset|
      invariant forall j :: 0 <= j < result.Length1 ==> result[i, j] == (j in subset[..t])
      invariant forall i', j :: 0 <= i' < result.Length0 && i' != i && 0 <= j < result.Length1 ==>
                  result[i', j] == old(result[i', j])
    {
      assert subset[..t + 1] == subset[..t] + [subset[t]];
      result[i, subset[t]] := true;
    }
    assert subset[..|subset|] == subset;
  }

  function Min(a: nat, b: nat): nat { if a <= b then a else b }

  /** Size of the permuted set and of its first part for condition c against condition 0. */
  function PermSize(conditions: seq<seq<nat>>, c: nat): nat
    requires 0 < |conditions| && c < |conditions|
  {
    |conditions[0]| + |conditions[c]|
  }

  function PermChoose(conditions: seq<seq<nat>>, c: nat): nat
    requires 0 < |conditions| && c < |conditions|
  {
    Min(|conditions[0]|, |conditions[c]|)
  }

  /** `init_perms(conditions)`: None for condition 0, then the subset table for each
      other condition against condition 0. */
  method InitPerms(conditions: seq<seq<nat>>) returns (perms: seq<Option<array2<bool>>>)
    requires |conditions| > 0
    ensures |perms| == |conditions| && perms[0] == None
    ensures forall c :: 1 <= c < |conditions| ==>
              perms[c].Some? && fresh(perms[c].value) &&
              perms[c].value.Length0 == |SubsetMasks(PermSize(conditions, c), PermChoose(conditions, c))| &&
              perms[c].value.Length1 == PermSize(conditions, c) &&
              forall i, j :: 0 <= i < perms[c].value.Length0 && 0 <= j < perms[c].value.Length1 ==>
                perms[c].value[i, j] == SubsetMasks(PermSize(conditions, c), PermChoose(conditions, c))[i][j]
  {
    perms := [None];
    var baselineLen := |conditions[0]|;
    for c := 1 to |conditions|
      invariant |perms| == c && perms[0] == None
      invariant forall c' :: 1 <= c' < c ==>
                  perms[c'].Some? && fresh(perms[c'].value) &&
                  perms[c'].value.Length0 == |SubsetMasks(PermSize(conditions, c'), PermChoose(conditions, c'))| &&
                  perms[c'].value.Length1 == PermSize(conditions, c') &&
                  forall i, j :: 0 <= i < perms[c'].value.Length0 && 0 <= j < perms[c'].value.Length1 ==>
                    perms[c'].value[i, j] == SubsetMasks(PermSize(conditions, c'), PermChoose(conditions, c'))[i][j]
    {
      var thisLen := |conditions[c]|;
      var table := AllSubsets(baselineLen + thisLen, Min(baselineLen, thisLen));
      perms := perms + [Some(table)];
    }
  }

  /** numpy's `xs[mask]` (keep = true) and `xs[~mask]` (keep = false). */
  function Select(xs: seq<nat>, mask: seq<bool>, keep: bool): seq<nat>
    requires |mask| == |xs|
  {
    if |xs| == 0 then []
    else Select(xs[..|xs| - 1], mask[..|xs| - 1], keep) + (if mask[|xs| - 1] == keep then [xs[|xs| - 1]] else [])
  }

  /** A mask and its complement split the index list into two parts that together
      hold every index exactly as often as the list does. */
  lemma SelectPartition(xs: seq<nat>, mask: seq<bool>)
    requires |mask| == |xs|
    ensures multiset(Select(xs, mask, true)) + multiset(Select(xs, mask, false)) == multiset(xs)
    ensures |Select(xs, mask, true)| == CountTrue(mask)
    ensures |Select(xs, mask, false)| == |xs| - CountTrue(mask)
  {
    SelectMultiset(xs, mask);
    SelectCount(xs, mask);
  }

  lemma {:induction false} SelectMultiset(xs: seq<nat>, mask: seq<bool>)
    requires |mask| == |xs|
    ensures multiset(Select(xs, mask, true)) + multiset(Select(xs, mask, false)) == multiset(xs)
  {
    if |xs| > 0 {
      var n := |xs| - 1;
      var init, m := xs[..n], mask[..n];
      SelectMultiset(init, m);
      SelectLast(xs, mask, true);
      SelectLast(xs, mask, false);
      SplitStep(Select(xs, mask, true), Select(xs, mask, false), Select(init, m, true), Select(init, m, false),
                xs, mask[n]);
    }
  }

  lemma SelectLast(xs: seq<nat>, mask: seq<bool>, keep: bool)
    requires |mask| == |xs| && |xs| > 0
    ensures var n := |xs| - 1;
            Select(xs, mask, keep) == Select(xs[..n], mask[..n], keep) + (if mask[n] == keep then [xs[n]] else [])
  {
  }

  /** Sending the last index to one side of a split of the others splits them all. */
  lemma SplitStep(yes: seq<nat>, no: seq<nat>, yesInit: seq<nat>, noInit: seq<nat>, xs: seq<nat>, b: bool)
    requires |xs| > 0 && multiset(yesInit) + multiset(noInit) == multiset(xs[..|xs| - 1])
    requires yes == yesInit + (if b then [xs[|xs| - 1]] else [])
    requires no == noInit + (if b then [] else [xs[|xs| - 1]])
    ensures multiset(yes) + multiset(no) == multiset(xs)
  {
    assert xs == xs[..|xs| - 1] + [xs[|xs| - 1]];
    if b {
      assert noInit + [] == noInit;
    } else {
      assert yesInit + [] == yesInit;
    }
  }

  lemma {:induction false} SelectCount(xs: seq<nat>, mask: seq<bool>)
    requires |mask| == |xs|
    ensures |Select(xs, mask, true)| == CountTrue(mask)
    ensures |Select(xs, mask, false)| == |xs| - CountTrue(mask)
  {
    if |xs| > 0 {
      var n := |xs| - 1;
      SelectCount(xs[..n], mask[..n]);
      assert mask[..n] == mask[..|mask| - 1];
    }
  }

  /** `master_indexes`: the columns of condition 0 followed by those of condition c. */
  function MasterIndexes(conditions: seq<seq<nat>>, c: nat): (r: seq<nat>)
    requires 0 < |conditions| && c < |conditions|
    ensures |r| == PermSize(conditions, c)
  {
    conditions[0] + conditions[c]
  }

  /** Each permutation takes min(n0, nc) of the pooled columns as v1 and the rest
      as v2; together they are the pooled columns of conditions 0 and c. */
  lemma PermutationSplit(conditions: seq<seq<nat>>, c: nat, p: nat)
    requires 0 < |conditions| && c < |conditions|
    requires p < |SubsetMasks(PermSize(conditions, c), PermChoose(conditions, c))|
    ensures var mask := SubsetMasks(PermSize(conditions, c), PermChoose(conditions, c))[p];
            var master := MasterIndexes(conditions, c);
            |Select(master, mask, true)| == PermChoose(conditions, c) &&
            |Select(master, mask, false)| == PermSize(conditions, c) - PermChoose(conditions, c) &&
            multiset(Select(master, mask, true)) + multiset(Select(master, mask, false))
              == multiset(conditions[0]) + multiset(conditions[c])
  {
    var n, k := PermSize(conditions, c), PermChoose(conditions, c);
    SubsetMasksShape(n, k);
    SelectPartition(MasterIndexes(conditions, c), SubsetMasks(n, k)[p]);
  }

  /** What `get_permuted_means` is given: the conditions (lists of table columns),
      the statistic (for condition c and column lists v2, v1: one row of
      per-feature values per tuning parameter), the per-(tuning parameter,
      condition) extremes, and the sizes s (tuning parameters), m (features) and
      h (bins). */
  datatype PermInputs = PermInputs(
    conditions: seq<seq<nat>>,
    stat: (nat, seq<nat>, seq<nat>) -> seq<seq<real>>,
    mins: seq<seq<real>>,
    maxes: seq<seq<real>>,
    s: nat, m: nat, h: nat)

  ghost predicate ValidInputs(job: PermInputs)
  {
    |job.conditions| > 0 &&
    Rect(job.mins, job.s, |job.conditions|) && Rect(job.maxes, job.s, |job.conditions|) &&
    forall c, v2, v1 :: Rect(job.stat(c, v2, v1), job.s, job.m)
  }

  /** The masks of condition c. */
  function Masks(job: PermInputs, c: nat): seq<seq<bool>>
    requires ValidInputs(job) && c < |job.conditions|
  {
    SubsetMasks(PermSize(job.conditions, c), PermChoose(job.conditions, c))
  }

  lemma MasksShape(job: PermInputs, c: nat)
    requires ValidInputs(job) && c < |job.conditions|
    ensures |Masks(job, c)| >= 1
    ensures forall p :: 0 <= p < |Masks(job, c)| ==> |Masks(job, c)[p]| == PermSize(job.conditions, c)
  {
    SubsetMasksShape(PermSize(job.conditions, c), PermChoose(job.conditions, c));
    BinomPositive(PermSize(job.conditions, c), PermChoose(job.conditions, c));
  }

  /** The statistics of one permutation: v1 = the masked pooled columns, v2 = the rest. */
  function PermStats(job: PermInputs, c: nat, mask: seq<bool>): (r: seq<seq<real>>)
    requires ValidInputs(job) && c < |job.conditions| && |mask| == PermSize(job.conditions, c)
    ensures Rect(r, job.s, job.m)
  {
    var master := MasterIndexes(job.conditions, c);
    job.stat(c, Select(master, mask, false), Select(master, mask, true))
  }

  /** The histograms of one permutation for tuning parameter i, already turned into
      "count at or above" form; None where `np.histogram` raises. */
  function PermCounts(job: PermInputs, c: nat, i: nat, mask: seq<bool>): Option<(seq<int>, seq<int>)>
    requires ValidInputs(job) && c < |job.conditions| && i < job.s && |mask| == PermSize(job.conditions, c)
  {
    match AssignBins(PermStats(job, c, mask)[i], job.h, job.mins[i][c], job.maxes[i][c])
    case None => None
    case Some((u, d)) => Some((AccumulateBins(u), AccumulateBins(d)))
  }

  /** Every permutation of condition c bins without error. */
  predicate AllBinned(job: PermInputs, c: nat, masks: seq<seq<bool>>)
    requires ValidInputs(job) && c < |job.conditions|
    requires forall p :: 0 <= p < |masks| ==> |masks[p]| == PermSize(job.conditions, c)
  {
    forall p, i :: 0 <= p < |masks| && 0 <= i < job.s ==> PermCounts(job, c, i, masks[p]).Some?
  }

  /** The permuted counts summed over the masks. */
  function PermTotals(job: PermInputs, c: nat, i: nat, masks: seq<seq<bool>>): (r: (seq<int>, seq<int>))
    requires ValidInputs(job) && c < |job.conditions| && i < job.s
    requires forall p :: 0 <= p < |masks| ==> |masks[p]| == PermSize(job.conditions, c)
    requires AllBinned(job, c, masks)
    ensures |r.0| == job.h + 1 && |r.1| == job.h + 1
  {
    if |masks| == 0 then (Zeros(job.h + 1), Zeros(job.h + 1))
    else
      var q := |masks| - 1;
      assert AllBinned(job, c, masks[..q]);
      var prev := PermTotals(job, c, i, masks[..q]);
      var last := PermCounts(job, c, i, masks[q]).value;
      AccumulateLength(job, c, i, masks[q]);
      (VecAdd(prev.0, last.0), VecAdd(prev.1, last.1))
  }

  lemma AccumulateLength(job: PermInputs, c: nat, i: nat, mask: seq<bool>)
    requires ValidInputs(job) && c < |job.conditions| && i < job.s && |mask| == PermSize(job.conditions, c)
    requires PermCounts(job, c, i, mask).Some?
    ensures |PermCounts(job, c, i, mask).value.0| == job.h + 1
    ensures |PermCounts(job, c, i, mask).value.1| == job.h + 1
  {
    AssignBinsTotals(PermStats(job, c, mask)[i], job.h, job.mins[i][c], job.maxes[i][c]);
  }

  /** Adding one more mask adds its counts. */
  lemma PermTotalsStep(job: PermInputs, c: nat, i: nat, masks: seq<seq<bool>>, p: nat)
    requires ValidInputs(job) && c < |job.conditions| && i < job.s
    requires forall q :: 0 <= q < |masks| ==> |masks[q]| == PermSize(job.conditions, c)
    requires p < |masks| && AllBinned(job, c, masks[..p + 1])
    ensures AllBinned(job, c, masks[..p])
    ensures PermCounts(job, c, i, masks[p]).Some?
    ensures PermTotals(job, c, i, masks[..p + 1]) ==
              (VecAdd(PermTotals(job, c, i, masks[..p]).0, PermCounts(job, c, i, masks[p]).value.0),
               VecAdd(PermTotals(job, c, i, masks[..p]).1, PermCounts(job, c, i, masks[p]).value.1))
  {
    assert masks[..p + 1][..p] == masks[..p];
    assert masks[..p + 1][p] == masks[p];
  }

  /** A column of counts of `total` items, "at or above" form: starts at the total,
      never rises, never negative. */
  predicate Shaped(t: seq<int>, total: int)
  {
    |t| > 0 && t[0] == total &&
    (forall a, b :: 0 <= a <= b < |t| ==> t[a] >= t[b]) &&
    (forall b :: 0 <= b < |t| ==> 0 <= t[b])
  }

  /** The sum of two shaped columns is shaped. */
  lemma AddShaped(t: seq<int>, a: seq<int>, x: int, y: int)
    requires |t| == |a| && Shaped(t, x) && Shaped(a, y)
    ensures Shaped(VecAdd(t, a), x + y)
  {
  }

  /** One accumulated histogram of m non-negative counts is shaped with total m. */
  lemma AccumulateShaped(u: seq<int>, m: nat)
    requires |u| > 0 && SumInt(u) == m && forall b :: 0 <= b < |u| ==> u[b] >= 0
    ensures Shaped(AccumulateBins(u), m)
  {
    AccumulateBinsProperties(u);
    AccumulateBinsNonIncreasing(u);
  }

  /** Each permutation's counts are shaped with total m (one count per feature). */
  lemma PermCountsShaped(job: PermInputs, c: nat, i: nat, mask: seq<bool>)
    requires ValidInputs(job) && c < |job.conditions| && i < job.s && |mask| == PermSize(job.conditions, c)
    requires PermCounts(job, c, i, mask).Some?
    ensures Shaped(PermCounts(job, c, i, mask).value.0, job.m)
    ensures Shaped(PermCounts(job, c, i, mask).value.1, job.m)
  {
    var vals := PermStats(job, c, mask)[i];
    AssignBinsTotals(vals, job.h, job.mins[i][c], job.maxes[i][c]);
    var (u, d) := AssignBins(vals, job.h, job.mins[i][c], job.maxes[i][c]).value;
    AccumulateShaped(u, job.m);
    AccumulateShaped(d, job.m);
  }

  /** The totals over q masks are shaped with total q * m. */
  lemma {:induction false} PermTotalsShaped(job: PermInputs, c: nat, i: nat, masks: seq<seq<bool>>)
    requires ValidInputs(job) && c < |job.conditions| && i < job.s
    requires forall p :: 0 <= p < |masks| ==> |masks[p]| == PermSize(job.conditions, c)
    requires AllBinned(job, c, masks)
    ensures Shaped(PermTotals(job, c, i, masks).0, |masks| * job.m)
    ensures Shaped(PermTotals(job, c, i, masks).1, |masks| * job.m)
  {
    var q := |masks|;
    if q == 0 {
      ZerosShaped(job.h + 1);
    } else {
      var p := q - 1;
      var init := masks[..p];
      assert masks == masks[..p + 1];
      PermTotalsStep(job, c, i, masks, p);
      PermTotalsShaped(job, c, i, init);
      PermCountsShaped(job, c, i, masks[p]);
      AccumulateLength(job, c, i, masks[p]);
      var prev := PermTotals(job, c, i, init);
      var last := PermCounts(job, c, i, masks[p]).value;
      var before := p * job.m;
      AddShaped(prev.0, last.0, before, job.m);
      AddShaped(prev.1, last.1, before, job.m);
      MulSucc(p, job.m);
    }
  }

  lemma ZerosShaped(n: nat)
    requires n > 0
    ensures Shaped(Zeros(n), 0)
  {
  }

  lemma MulSucc(p: nat, m: nat)
    ensures p * m + m == (p + 1) * m
  {
  }

  /** Each entry divided by the number of permutations. */
  function Scaled(t: seq<int>, q: nat): (r: seq<real>)
    requires q > 0
    ensures |r| == |t| && forall b :: 0 <= b < |t| ==> r[b] == t[b] as real / q as real
  {
    seq(|t|, b requires 0 <= b < |t| => t[b] as real / q as real)
  }

  /** The mean of q shaped columns of total q * m starts at m, never rises and stays within [0, m]. */
  lemma ScaledShaped(t: seq<int>, q: nat, m: nat)
    requires q > 0 && Shaped(t, q * m)
    ensures Scaled(t, q)[0] == m as real
    ensures forall a, b :: 0 <= a <= b < |t| ==> Scaled(t, q)[a] >= Scaled(t, q)[b]
    ensures forall b :: 0 <= b < |t| ==> 0.0 <= Scaled(t, q)[b] <= m as real
  {
    var r := q as real;
    var sc := Scaled(t, q);
    assert t[0] as real == r * (m as real);
    assert sc[0] == m as real;
    forall a, b | 0 <= a <= b < |t| ensures sc[a] >= sc[b] {
      DivideMonotone(t[b] as real, t[a] as real, r);
    }
    forall b | 0 <= b < |t| ensures 0.0 <= sc[b] <= m as real {
      DivideMonotone(t[b] as real, t[0] as real, r);
      DivideMonotone(0.0, t[b] as real, r);
    }
  }

  lemma DivideMonotone(x: real, y: real, r: real)
    requires x <= y && r > 0.0
    ensures x / r <= y / r
  {
    assert y / r - x / r == (y - x) / r;
  }

  /** `mean_perm_u[i, c, :]` and `mean_perm_d[i, c, :]`: the totals over all masks of
      condition c divided by the number of masks. */
  function MeanPerm(job: PermInputs, c: nat, i: nat): (r: (seq<real>, seq<real>))
    requires ValidInputs(job) && 1 <= c < |job.conditions| && i < job.s
    requires forall p :: 0 <= p < |Masks(job, c)| ==> |Masks(job, c)[p]| == PermSize(job.conditions, c)
    requires AllBinned(job, c, Masks(job, c))
    ensures |r.0| == job.h + 1 && |r.1| == job.h + 1
  {
    MasksShape(job, c);
    var t := PermTotals(job, c, i, Masks(job, c));
    (Scaled(t.0, |Masks(job, c)|), Scaled(t.1, |Masks(job, c)|))
  }

  /** The mean permuted table of condition c starts at m (every feature is at or
      above bin 0), never rises, and stays in [0, m]. */
  lemma MeanPermShape(job: PermInputs, c: nat, i: nat)
    requires ValidInputs(job) && 1 <= c < |job.conditions| && i < job.s
    requires forall p :: 0 <= p < |Masks(job, c)| ==> |Masks(job, c)[p]| == PermSize(job.conditions, c)
    requires AllBinned(job, c, Masks(job, c))
    ensures MeanPerm(job, c, i).0[0] == job.m as real && MeanPerm(job, c, i).1[0] == job.m as real
    ensures forall a, b :: 0 <= a <= b <= job.h ==>
              MeanPerm(job, c, i).0[a] >= MeanPerm(job, c, i).0[b] &&
              MeanPerm(job, c, i).1[a] >= MeanPerm(job, c, i).1[b]
    ensures forall b :: 0 <= b <= job.h ==>
              0.0 <= MeanPerm(job, c, i).0[b] <= job.m as real &&
              0.0 <= MeanPerm(job, c, i).1[b] <= job.m as real
  {
    MasksShape(job, c);
    PermTotalsShaped(job, c, i, Masks(job, c));
    var t := PermTotals(job, c, i, Masks(job, c));
    ScaledShaped(t.0, |Masks(job, c)|, job.m);
    ScaledShaped(t.1, |Masks(job, c)|, job.m);
  }

  /** One permutation's counts for every tuning parameter, added to the running totals. */
  method AddPermutation(job: PermInputs, c: nat, masks: seq<seq<bool>>, p: nat,
                        totU: seq<seq<int>>, totD: seq<seq<int>>)
    returns (ok: bool, newU: seq<seq<int>>, newD: seq<seq<int>>)
    requires ValidInputs(job) && c < |job.conditions|
    requires forall q :: 0 <= q < |masks| ==> |masks[q]| == PermSize(job.conditions, c)
    requires p < |masks|
    requires |totU| == job.s && |totD| == job.s
    requires forall i :: 0 <= i < job.s ==> |totU[i]| == job.h + 1 && |totD[i]| == job.h + 1
    ensures ok <==> forall i :: 0 <= i < job.s ==> PermCounts(job, c, i, masks[p]).Some?
    ensures ok ==> |newU| == job.s && |newD| == job.s &&
                   forall i :: 0 <= i < job.s ==>
                     var counts := PermCounts(job, c, i, masks[p]);
                     newU[i] == VecAdd(totU[i], counts.value.0) && newD[i] == VecAdd(totD[i], counts.value.1)
  {
    var master := MasterIndexes(job.conditions, c);
    var v1 := Select(master, masks[p], true);
    var v2 := Select(master, masks[p], false);
    var stats := job.stat(c, v2, v1);
    assert stats == PermStats(job, c, masks[p]);
    var mask := masks[p];
    newU, newD := [], [];
    for i := 0 to job.s
      invariant |newU| == i && |newD| == i
      invariant forall i' :: 0 <= i' < i ==>
                  var counts := PermCounts(job, c, i', mask);
                  counts.Some? && newU[i'] == VecAdd(totU[i'], counts.value.0) &&
                  newD[i'] == VecAdd(totD[i'], counts.value.1)
    {
      var okI, u, d := AddFeature(job, c, mask, stats, i, totU[i], totD[i]);
      if !okI {
        return false, newU, newD;
      }
      newU := newU + [u];
      newD := newD + [d];
    }
    ok := true;
  }

  /** The histogram step for tuning parameter i of one permutation: bin its
      statistics and add the "at or above" counts to the running totals. */
  method AddFeature(job: PermInputs, c: nat, mask: seq<bool>, stats: seq<seq<real>>, i: nat,
                    totU: seq<int>, totD: seq<int>)
    returns (ok: bool, newU: seq<int>, newD: seq<int>)
    requires ValidInputs(job) && c < |job.conditions| && i < job.s && |mask| == PermSize(job.conditions, c)
    requires stats == PermStats(job, c, mask)
    requires |totU| == job.h + 1 && |totD| == job.h + 1
    ensures ok <==> PermCounts(job, c, i, mask).Some?
    ensures ok ==> newU == VecAdd(totU, PermCounts(job, c, i, mask).value.0) &&
                   newD == VecAdd(totD, PermCounts(job, c, i, mask).value.1)
  {
    var hist := AssignBins(stats[i], job.h, job.mins[i][c], job.maxes[i][c]);
    if hist.None? {
      return false, totU, totD;
    }
    AccumulateLength(job, c, i, mask);
    var (u, d) := hist.value;
    ok, newU, newD := true, VecAdd(totU, AccumulateBins(u)), VecAdd(totD, AccumulateBins(d));
  }

  /** One mask without a histogram leaves the whole list unbinned. */
  lemma NotAllBinned(job: PermInputs, c: nat, masks: seq<seq<bool>>, p: nat)
    requires ValidInputs(job) && c < |job.conditions|
    requires forall q :: 0 <= q < |masks| ==> |masks[q]| == PermSize(job.conditions, c)
    requires p < |masks| && !forall i :: 0 <= i < job.s ==> PermCounts(job, c, i, masks[p]).Some?
    ensures !AllBinned(job, c, masks)
  {
    var i :| 0 <= i < job.s && PermCounts(job, c, i, masks[p]).None?;
  }

  /** The loop step of `ConditionTotals`: adding mask p to the totals over the
      first p masks gives the totals over the first p + 1. */
  lemma TotalsGrow(job: PermInputs, c: nat, masks: seq<seq<bool>>, p: nat,
                   totU: seq<seq<int>>, totD: seq<seq<int>>, nextU: seq<seq<int>>, nextD: seq<seq<int>>)
    requires ValidInputs(job) && c < |job.conditions|
    requires forall q :: 0 <= q < |masks| ==> |masks[q]| == PermSize(job.conditions, c)
    requires p < |masks|
    requires AllBinned(job, c, masks[..p])
    requires |totU| == job.s && |totD| == job.s && |nextU| == job.s && |nextD| == job.s
    requires forall i :: 0 <= i < job.s ==> |totU[i]| == job.h + 1 && |totD[i]| == job.h + 1
    requires forall i :: 0 <= i < job.s ==>
               totU[i] == PermTotals(job, c, i, masks[..p]).0 && totD[i] == PermTotals(job, c, i, masks[..p]).1
    requires forall i :: 0 <= i < job.s ==> PermCounts(job, c, i, masks[p]).Some?
    requires forall i :: 0 <= i < job.s ==>
               nextU[i] == VecAdd(totU[i], PermCounts(job, c, i, masks[p]).value.0) &&
               nextD[i] == VecAdd(totD[i], PermCounts(job, c, i, masks[p]).value.1)
    ensures AllBinned(job, c, masks[..p + 1])
    ensures forall i :: 0 <= i < job.s ==>
              nextU[i] == PermTotals(job, c, i, masks[..p + 1]).0 && nextD[i] == PermTotals(job, c, i, masks[..p + 1]).1
  {
    var grown := masks[..p + 1];
    forall q, i | 0 <= q < p + 1 && 0 <= i < job.s ensures PermCounts(job, c, i, grown[q]).Some? {
      if q < p { assert grown[q] == masks[..p][q]; }
    }
    forall i | 0 <= i < job.s
      ensures nextU[i] == PermTotals(job, c, i, grown).0 && nextD[i] == PermTotals(job, c, i, grown).1
    {
      PermTotalsStep(job, c, i, masks, p);
    }
  }

  /** The summed counts over all masks of condition c; ok is false where Python raises. */
  method ConditionTotals(job: PermInputs, c: nat) returns (ok: bool, totU: seq<seq<int>>, totD: seq<seq<int>>)
    requires ValidInputs(job) && c < |job.conditions|
    ensures forall p :: 0 <= p < |Masks(job, c)| ==> |Masks(job, c)[p]| == PermSize(job.conditions, c)
    ensures ok <==> AllBinned(job, c, Masks(job, c))
    ensures ok ==> |totU| == job.s && |totD| == job.s &&
                   forall i :: 0 <= i < job.s ==>
                     totU[i] == PermTotals(job, c, i, Masks(job, c)).0 &&
                     totD[i] == PermTotals(job, c, i, Masks(job, c)).1
  {
    var masks := Masks(job, c);
    MasksShape(job, c);
    totU := seq(job.s, i => Zeros(job.h + 1));
    totD := seq(job.s, i => Zeros(job.h + 1));
    assert masks[..0] == [];
    for p := 0 to |masks|
      invariant AllBinned(job, c, masks[..p])
      invariant |totU| == job.s && |totD| == job.s
      invariant forall i :: 0 <= i < job.s ==>
                  totU[i] == PermTotals(job, c, i, masks[..p]).0 && totD[i] == PermTotals(job, c, i, masks[..p]).1
    {
      var okP, nextU, nextD := AddPermutation(job, c, masks, p, totU, totD);
      if !okP {
        NotAllBinned(job, c, masks, p);
        return false, totU, totD;
      }
      TotalsGrow(job, c, masks, p, totU, totD, nextU, nextD);
      totU, totD := nextU, nextD;
    }
    assert masks[..|masks|] == masks;
    ok := true;
  }

  /** Writes one (tuning parameter, condition) row of a mean table. */
  method WriteRow(a: array3<real>, i: nat, c: nat, row: seq<real>)
    requires i < a.Length0 && c < a.Length1 && |row| == a.Length2
    modifies a
    ensures forall b :: 0 <= b < |row| ==> a[i, c, b] == row[b]
    ensures forall i', c', b :: (0 <= i' < a.Length0 && 0 <= c' < a.Length1 && 0 <= b < a.Length2 &&
              (i' != i || c' != c)) ==> a[i', c', b] == old(a[i', c', b])
  {
    for b := 0 to |row|
      invariant forall b' :: 0 <= b' < b ==> a[i, c, b'] == row[b']
      invariant forall i', c', b' :: (0 <= i' < a.Length0 && 0 <= c' < a.Length1 && 0 <= b' < a.Length2 &&
                  (i' != i || c' != c)) ==> a[i', c', b'] == old(a[i', c', b'])
    {
      a[i, c, b] := row[b];
    }
  }

  lemma AllMasksShape(job: PermInputs)
    requires ValidInputs(job)
    ensures forall c :: 0 <= c < |job.conditions| ==>
              forall p :: 0 <= p < |Masks(job, c)| ==> |Masks(job, c)[p]| == PermSize(job.conditions, c)
  {
    forall c | 0 <= c < |job.conditions|
      ensures forall p :: 0 <= p < |Masks(job, c)| ==> |Masks(job, c)[p]| == PermSize(job.conditions, c)
    {
      MasksShape(job, c);
    }
  }

  /** Fills condition c of both mean tables: `np.mean(hist, axis=0)` over the masks. */
  method WriteCondition(job: PermInputs, c: nat, totU: seq<seq<int>>, totD: seq<seq<int>>,
                        meanU: array3<real>, meanD: array3<real>)
    requires ValidInputs(job) && 1 <= c < |job.conditions|
    requires forall p :: 0 <= p < |Masks(job, c)| ==> |Masks(job, c)[p]| == PermSize(job.conditions, c)
    requires AllBinned(job, c, Masks(job, c))
    requires |totU| == job.s && |totD| == job.s
    requires forall i :: 0 <= i < job.s ==>
               totU[i] == PermTotals(job, c, i, Masks(job, c)).0 && totD[i] == PermTotals(job, c, i, Masks(job, c)).1
    requires meanU != meanD
    requires meanU.Length0 == job.s && meanU.Length1 == |job.conditions| && meanU.Length2 == job.h + 1
    requires meanD.Length0 == job.s && meanD.Length1 == |job.conditions| && meanD.Length2 == job.h + 1
    modifies meanU, meanD
    ensures forall i, b :: 0 <= i < job.s && 0 <= b <= job.h ==>
              meanU[i, c, b] == MeanPerm(job, c, i).0[b] && meanD[i, c, b] == MeanPerm(job, c, i).1[b]
    ensures forall i, c', b :: 0 <= i < job.s && 0 <= c' < |job.conditions| && c' != c && 0 <= b <= job.h ==>
              meanU[i, c', b] == old(meanU[i, c', b]) && meanD[i, c', b] == old(meanD[i, c', b])
  {
    MasksShape(job, c);
    var r := |Masks(job, c)|;
    for i := 0 to job.s
      invariant forall i', b :: 0 <= i' < i && 0 <= b <= job.h ==>
                  meanU[i', c, b] == MeanPerm(job, c, i').0[b] && meanD[i', c, b] == MeanPerm(job, c, i').1[b]
      invariant forall i', c', b :: 0 <= i' < job.s && 0 <= c' < |job.conditions| && c' != c && 0 <= b <= job.h ==>
                  meanU[i', c', b] == old(meanU[i', c', b]) && meanD[i', c', b] == old(meanD[i', c', b])
    {
      assert MeanPerm(job, c, i).0 == Scaled(totU[i], r);
      assert MeanPerm(job, c, i).1 == Scaled(totD[i], r);
      WriteRow(meanU, i, c, Scaled(totU[i], r));
      WriteRow(meanD, i, c, Scaled(totD[i], r));
    }
  }

  /** Column c of the output tables holds the mean permuted tables of condition c. */
  ghost predicate MeanColumn(job: PermInputs, c: nat, meanU: array3<real>, meanD: array3<real>)
    requires ValidInputs(job) && 1 <= c < |job.conditions|
    requires meanU.Length0 == job.s && meanU.Length1 == |job.conditions| && meanU.Length2 == job.h + 1
    requires meanD.Length0 == job.s && meanD.Length1 == |job.conditions| && meanD.Length2 == job.h + 1
    reads meanU, meanD
  {
    MasksShape(job, c);
    AllBinned(job, c, Masks(job, c)) &&
    forall i, b :: 0 <= i < job.s && 0 <= b <= job.h ==>
      meanU[i, c, b] == MeanPerm(job, c, i).0[b] && meanD[i, c, b] == MeanPerm(job, c, i).1[b]
  }

  /** One pass of the condition loop: accumulate condition c over its masks and,
      when every histogram exists, store the means in column c. */
  method FillCondition(job: PermInputs, c: nat, meanU: array3<real>, meanD: array3<real>) returns (ok: bool)
    requires ValidInputs(job) && 1 <= c < |job.conditions|
    requires meanU != meanD
    requires meanU.Length0 == job.s && meanU.Length1 == |job.conditions| && meanU.Length2 == job.h + 1
    requires meanD.Length0 == job.s && meanD.Length1 == |job.conditions| && meanD.Length2 == job.h + 1
    modifies meanU, meanD
    ensures ok <==> AllBinned(job, c, Masks(job, c))
    ensures ok ==> MeanColumn(job, c, meanU, meanD)
    ensures forall c' :: 1 <= c' < |job.conditions| && c' != c && old(MeanColumn(job, c', meanU, meanD)) ==>
              MeanColumn(job, c', meanU, meanD)
    ensures forall i, b :: 0 <= i < job.s && 0 <= b <= job.h ==>
              meanU[i, 0, b] == old(meanU[i, 0, b]) && meanD[i, 0, b] == old(meanD[i, 0, b])
  {
    var totU, totD;
    ok, totU, totD := ConditionTotals(job, c);
    if ok {
      WriteCondition(job, c, totU, totD, meanU, meanD);
    }
  }

  /** `get_permuted_means(job, mins, maxes, default_alphas, num_bins)`: the
      (tuning parameters x conditions x bins) mean permuted tables; condition 0
      stays zero; ok is false where Python raises. */
  method GetPermutedMeans(job: PermInputs) returns (ok: bool, meanU: array3<real>, meanD: array3<real>)
    requires ValidInputs(job)
    ensures fresh(meanU) && fresh(meanD)
    ensures meanU.Length0 == job.s && meanU.Length1 == |job.conditions| && meanU.Length2 == job.h + 1
    ensures meanD.Length0 == job.s && meanD.Length1 == |job.conditions| && meanD.Length2 == job.h + 1
    ensures forall i, b :: 0 <= i < job.s && 0 <= b <= job.h ==> meanU[i, 0, b] == 0.0 && meanD[i, 0, b] == 0.0
    ensures forall c :: 0 <= c < |job.conditions| ==>
              forall p :: 0 <= p < |Masks(job, c)| ==> |Masks(job, c)[p]| == PermSize(job.conditions, c)
    ensures ok <==> forall c :: 1 <= c < |job.conditions| ==> AllBinned(job, c, Masks(job, c))
    ensures ok ==> forall c :: 1 <= c < |job.conditions| ==> MeanColumn(job, c, meanU, meanD)
  {
    var n := |job.conditions|;
    meanU := new real[job.s, n, job.h + 1]((i, c, b) => 0.0);
    meanD := new real[job.s, n, job.h + 1]((i, c, b) => 0.0);
    AllMasksShape(job);
    ok := true;
    var c := 1;
    while c < n && ok
      invariant 1 <= c <= n
      invariant forall i, b :: 0 <= i < job.s && 0 <= b <= job.h ==> meanU[i, 0, b] == 0.0 && meanD[i, 0, b] == 0.0
      invariant ok ==> forall c' :: 1 <= c' < c ==> MeanColumn(job, c', meanU, meanD)
      invariant !ok ==> 2 <= c && !AllBinned(job, c - 1, Masks(job, c - 1))
    {
      ok := FillCondition(job, c, meanU, meanD);
      c := c + 1;
    }
    if ok {
      forall c' | 1 <= c' < n
        ensures AllBinned(job, c', Masks(job, c'))
      {
        assert MeanColumn(job, c', meanU, meanD);
      }
    }
  }
}
