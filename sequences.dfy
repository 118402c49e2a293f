/** Sequence helpers shared by the models of the scoring engine: sums, counts,
    reversal, gathering by index lists, concatenation and joining of strings. */
module Sequences {

  function Max(a: real, b: real): real { if a >= b then a else b }

  /** Sum of a sequence of reals, accumulated left to right. */
  function Sum(s: seq<real>): real
  {
    if |s| == 0 then 0.0 else Sum(s[..|s| - 1]) + s[|s| - 1]
  }

  /** Sum of a sequence of integers, accumulated left to right. */
  function SumInt(s: seq<int>): int
  {
    if |s| == 0 then 0 else SumInt(s[..|s| - 1]) + s[|s| - 1]
  }

  lemma {:induction false} SumConcat(a: seq<real>, b: seq<real>)
    ensures Sum(a + b) == Sum(a) + Sum(b)
  {
    if |b| == 0 {
      assert a + b == a;
    } else {
      assert (a + b)[..|a + b| - 1] == a + b[..|b| - 1];
      SumConcat(a, b[..|b| - 1]);
    }
  }

  lemma {:induction false} SumIntConcat(a: seq<int>, b: seq<int>)
    ensures SumInt(a + b) == SumInt(a) + SumInt(b)
  {
    if |b| == 0 {
      assert a + b == a;
    } else {
      assert (a + b)[..|a + b| - 1] == a + b[..|b| - 1];
      SumIntConcat(a, b[..|b| - 1]);
    }
  }

  lemma SumIntCons(x: int, s: seq<int>)
    ensures SumInt([x] + s) == x + SumInt(s)
  {
    SumIntConcat([x], s);
    assert SumInt([x]) == SumInt([x][..0]) + x;
  }

  /** Elementwise sum of two integer vectors of equal length. */
  function VecAdd(a: seq<int>, b: seq<int>): (r: seq<int>)
    requires |a| == |b|
    ensures |r| == |a| && forall i :: 0 <= i < |a| ==> r[i] == a[i] + b[i]
  {
    seq(|a|, i requires 0 <= i < |a| => a[i] + b[i])
  }

  function Zeros(n: nat): (r: seq<int>)
    ensures |r| == n && forall i :: 0 <= i < n ==> r[i] == 0
  {
    seq(n, i => 0)
  }

  lemma {:induction false} SumZeros(n: nat)
    ensures SumInt(Zeros(n)) == 0
  {
    if n > 0 {
      assert Zeros(n)[..n - 1] == Zeros(n - 1);
      SumZeros(n - 1);
    }
  }

  /** Number of entries >= t. */
  function CountAtLeast(s: seq<real>, t: real): nat
  {
    if |s| == 0 then 0 else CountAtLeast(s[..|s| - 1], t) + (if s[|s| - 1] >= t then 1 else 0)
  }

  /** Number of entries < t. */
  function CountBelow(s: seq<real>, t: real): nat
  {
    if |s| == 0 then 0 else CountBelow(s[..|s| - 1], t) + (if s[|s| - 1] < t then 1 else 0)
  }

  /** Number of entries > t. */
  function CountAbove(s: seq<real>, t: real): nat
  {
    if |s| == 0 then 0 else CountAbove(s[..|s| - 1], t) + (if s[|s| - 1] > t then 1 else 0)
  }

  /** Number of entries <= t. */
  function CountAtMost(s: seq<real>, t: real): nat
  {
    if |s| == 0 then 0 else CountAtMost(s[..|s| - 1], t) + (if s[|s| - 1] <= t then 1 else 0)
  }

  lemma {:induction false} CountBelowSplit(s: seq<real>, t: real)
    ensures CountAtLeast(s, t) + CountBelow(s, t) == |s|
  {
    if |s| > 0 { CountBelowSplit(s[..|s| - 1], t); }
  }

  lemma {:induction false} CountAboveSplit(s: seq<real>, t: real)
    ensures CountAtMost(s, t) + CountAbove(s, t) == |s|
  {
    if |s| > 0 { CountAboveSplit(s[..|s| - 1], t); }
  }

  /** Number of `true` entries. */
  function CountTrue(s: seq<bool>): nat
  {
    if |s| == 0 then 0 else CountTrue(s[..|s| - 1]) + (if s[|s| - 1] then 1 else 0)
  }

  function Reverse<T>(s: seq<T>): (r: seq<T>)
    ensures |r| == |s|
    ensures forall i :: 0 <= i < |s| ==> r[i] == s[|s| - 1 - i]
  {
    if |s| == 0 then [] else [s[|s| - 1]] + Reverse(s[..|s| - 1])
  }

  /** The entries of `data` at the positions listed in `idxs`, in list order
      (numpy's `data[..., idxs]` on one row). */
  function Gather(data: seq<real>, idxs: seq<nat>): (r: seq<real>)
    requires forall k :: 0 <= k < |idxs| ==> idxs[k] < |data|
    ensures |r| == |idxs| && forall k :: 0 <= k < |idxs| ==> r[k] == data[idxs[k]]
  {
    seq(|idxs|, k requires 0 <= k < |idxs| => data[idxs[k]])
  }

  /** Concatenation of a sequence of sequences. */
  function Concat<T>(ss: seq<seq<T>>): seq<T>
  {
    if |ss| == 0 then [] else Concat(ss[..|ss| - 1]) + ss[|ss| - 1]
  }

  /** Python's `sep.join(parts)`. */
  function Join(sep: string, parts: seq<string>): string
  {
    if |parts| == 0 then ""
    else if |parts| == 1 then parts[0]
    else Join(sep, parts[..|parts| - 1]) + sep + parts[|parts| - 1]
  }

  /** The shape of a 2-D table: `rows` rows of `cols` entries. */
  /** No entry occurs twice. */
  predicate NoDuplicates<T(==)>(s: seq<T>)
  {
    forall i, j :: 0 <= i < j < |s| ==> s[i] != s[j]
  }

  lemma FirstTwoDiffer<T>(s: seq<T>)
    requires NoDuplicates(s)
    ensures |s| > 1 ==> s[0] != s[1]
  {
  }

  predicate Rect<T>(t: seq<seq<T>>, rows: nat, cols: nat)
  {
    |t| == rows && forall i :: 0 <= i < rows ==> |t[i]| == cols
  }

  /** The shape of a 3-D table. */
  predicate Box<T>(t: seq<seq<seq<T>>>, d0: nat, d1: nat, d2: nat)
  {
    |t| == d0 && forall i :: 0 <= i < d0 ==> Rect(t[i], d1, d2)
  }
}
