/** The two computing steps of the newer pipeline's task list (pade/tasks.py):
    the feature orderings by score and by fold change, and the wiring of the
    confidence-score step. */
module PadeTasks {
  import Sequences

  /** Index a comes before index b in `np.lexsort((original, 0.0 - s))`: the
      negated value is the primary key, so larger values first, and equal values
      in ascending original index. */
  predicate Before(s: seq<real>, a: nat, b: nat)
    requires a < |s| && b < |s|
  {
    s[a] > s[b] || (s[a] == s[b] && a < b)
  }

  predicate InRange(order: seq<nat>, n: nat)
  {
    forall k :: 0 <= k < |order| ==> order[k] < n
  }

  /** Every earlier index comes before every later one. */
  predicate Ranked(s: seq<real>, order: seq<nat>)
    requires InRange(order, |s|)
  {
    forall k, l :: 0 <= k < l < |order| ==> Before(s, order[k], order[l])
  }

  /** The identity arrangement 0..n-1. */
  function Range(n: nat): (r: seq<nat>)
    ensures |r| == n
  {
    seq(n, k requires 0 <= k < n => k as nat)
  }

  /** Inserts index x behind every index that comes before it. */
  function Insert(s: seq<real>, sorted: seq<nat>, x: nat): (r: seq<nat>)
    requires InRange(sorted, |s|) && x < |s|
    ensures |r| == |sorted| + 1 && InRange(r, |s|)
  {
    if |sorted| == 0 then [x]
    else if Before(s, x, sorted[0]) then [x] + sorted
    else [sorted[0]] + Insert(s, sorted[1..], x)
  }

  /** Insertion adds x and loses nothing. */
  lemma {:induction false} InsertPerm(s: seq<real>, sorted: seq<nat>, x: nat)
    requires InRange(sorted, |s|) && x < |s|
    ensures multiset(Insert(s, sorted, x)) == multiset(sorted) + multiset{x}
  {
    if |sorted| > 0 && !Before(s, x, sorted[0]) {
      InsertPerm(s, sorted[1..], x);
      assert sorted == [sorted[0]] + sorted[1..];
    }
  }

  /** `np.lexsort((original, 0.0 - s))` on the first n indexes, built by insertion. */
  function LexsortPrefix(s: seq<real>, n: nat): (r: seq<nat>)
    requires n <= |s|
    ensures |r| == n && InRange(r, |s|)
  {
    if n == 0 then [] else Insert(s, LexsortPrefix(s, n - 1), n - 1)
  }

  lemma RangeMultiset(n: nat)
    requires n > 0
    ensures multiset(Range(n)) == multiset(Range(n - 1)) + multiset{(n - 1) as nat}
  {
    assert Range(n) == Range(n - 1) + [n - 1];
  }

  /** The first n positions of the lexsort are a permutation of 0..n-1. */
  lemma {:induction false} LexsortPrefixPerm(s: seq<real>, n: nat)
    requires n <= |s|
    ensures multiset(LexsortPrefix(s, n)) == multiset(Range(n))
  {
    if n > 0 {
      LexsortPrefixPerm(s, n - 1);
      InsertNext(s, LexsortPrefix(s, n - 1), n);
    }
  }

  /** Inserting n-1 into a permutation of 0..n-2 gives a permutation of 0..n-1. */
  lemma InsertNext(s: seq<real>, front: seq<nat>, n: nat)
    requires 0 < n <= |s| && InRange(front, |s|) && multiset(front) == multiset(Range(n - 1))
    ensures multiset(Insert(s, front, n - 1)) == multiset(Range(n))
  {
    InsertPerm(s, front, n - 1);
    RangeMultiset(n);
  }

  function Lexsort(s: seq<real>): (r: seq<nat>)
    ensures multiset(r) == multiset(Range(|s|)) && |r| == |s| && InRange(r, |s|)
  {
    LexsortPrefixPerm(s, |s|);
    LexsortPrefix(s, |s|)
  }

  lemma BeforeTotal(s: seq<real>, a: nat, b: nat)
    requires a < |s| && b < |s| && a != b
    ensures Before(s, a, b) || Before(s, b, a)
  {
  }

  lemma BeforeTransitive(s: seq<real>, a: nat, b: nat, c: nat)
    requires a < |s| && b < |s| && c < |s| && Before(s, a, b) && Before(s, b, c)
    ensures Before(s, a, c)
  {
  }

  /** Inserting a new index into a ranked list keeps it ranked. */
  lemma {:induction false} InsertRanked(s: seq<real>, sorted: seq<nat>, x: nat)
    requires InRange(sorted, |s|) && x < |s| && x !in sorted && Ranked(s, sorted)
    ensures Ranked(s, Insert(s, sorted, x))
  {
    if |sorted| == 0 {
    } else if Before(s, x, sorted[0]) {
      InsertFront(s, sorted, x);
    } else {
      BeforeTotal(s, x, sorted[0]);
      var tail := sorted[1..];
      assert x !in tail;
      InsertRanked(s, tail, x);
      InsertPerm(s, tail, x);
      InsertBehind(s, sorted, x, Insert(s, tail, x));
    }
  }

  /** x comes before the head, so before all of a ranked list. */
  lemma InsertFront(s: seq<real>, sorted: seq<nat>, x: nat)
    requires InRange(sorted, |s|) && x < |s| && |sorted| > 0 && Ranked(s, sorted) && Before(s, x, sorted[0])
    ensures Ranked(s, [x] + sorted)
  {
    var r := [x] + sorted;
    forall k, l | 0 <= k < l < |r| ensures Before(s, r[k], r[l]) {
      if k == 0 && l > 1 {
        BeforeTransitive(s, x, sorted[0], sorted[l - 1]);
      }
    }
  }

  /** The head comes before x and before the rest, so it stays in front of a
      ranked arrangement of the rest and x. */
  lemma InsertBehind(s: seq<real>, sorted: seq<nat>, x: nat, rest: seq<nat>)
    requires InRange(sorted, |s|) && x < |s| && |sorted| > 0 && Ranked(s, sorted) && Before(s, sorted[0], x)
    requires InRange(rest, |s|) && Ranked(s, rest) && multiset(rest) == multiset(sorted[1..]) + multiset{x}
    ensures InRange([sorted[0]] + rest, |s|) && Ranked(s, [sorted[0]] + rest)
  {
    var tail := sorted[1..];
    var r := [sorted[0]] + rest;
    forall l | 0 <= l < |rest| ensures Before(s, sorted[0], rest[l]) {
      assert rest[l] in multiset(rest);
      if rest[l] != x {
        assert rest[l] in multiset(tail);
        var j :| 0 <= j < |tail| && tail[j] == rest[l];
        assert sorted[j + 1] == rest[l];
      }
    }
    forall k, l | 0 <= k < l < |r| ensures Before(s, r[k], r[l]) {
      if k > 0 {
        assert r[k] == rest[k - 1] && r[l] == rest[l - 1];
      }
    }
  }

  lemma {:induction false} LexsortPrefixRanked(s: seq<real>, n: nat)
    requires n <= |s|
    ensures Ranked(s, LexsortPrefix(s, n))
  {
    if n > 0 {
      var front := LexsortPrefix(s, n - 1);
      LexsortPrefixRanked(s, n - 1);
      LexsortPrefixBelow(s, n - 1);
      assert n - 1 !in front;
      InsertRanked(s, front, n - 1);
    }
  }

  /** The insertion only adds x, so a bound on the list and on x bounds the result. */
  lemma {:induction false} InsertBelow(s: seq<real>, sorted: seq<nat>, x: nat, m: nat)
    requires InRange(sorted, |s|) && x < |s| && InRange(sorted, m) && x < m
    ensures InRange(Insert(s, sorted, x), m)
  {
    if |sorted| > 0 && !Before(s, x, sorted[0]) {
      InsertBelow(s, sorted[1..], x, m);
    }
  }

  /** The first n positions of the lexsort hold indexes below n. */
  lemma {:induction false} LexsortPrefixBelow(s: seq<real>, n: nat)
    requires n <= |s|
    ensures InRange(LexsortPrefix(s, n), n)
  {
    if n > 0 {
      LexsortPrefixBelow(s, n - 1);
      InsertBelow(s, LexsortPrefix(s, n - 1), n - 1, n);
    }
  }

  /** The lexsort is a permutation of 0..n-1 whose values never increase, with
      equal values in ascending original index. */
  lemma LexsortSpec(s: seq<real>)
    ensures multiset(Lexsort(s)) == multiset(Range(|s|))
    ensures forall k, l :: 0 <= k < l < |s| ==> s[Lexsort(s)[k]] >= s[Lexsort(s)[l]]
    ensures forall k, l :: 0 <= k < l < |s| && s[Lexsort(s)[k]] == s[Lexsort(s)[l]] ==> Lexsort(s)[k] < Lexsort(s)[l]
  {
    LexsortPrefixRanked(s, |s|);
  }

  /** The ranking is unique: any list of the indexes ranked this way is the lexsort. */
  lemma {:induction false} RankedUnique(s: seq<real>, p: seq<nat>, q: seq<nat>)
    requires InRange(p, |s|) && InRange(q, |s|) && multiset(p) == multiset(q)
    requires Ranked(s, p) && Ranked(s, q)
    ensures p == q
  {
    if |p| == 0 {
      assert |q| == |multiset(q)| == 0;
    } else {
      var pt, qt := Tails(s, p, q);
      RankedUnique(s, pt, qt);
      assert p == [p[0]] + pt;
      assert q == [q[0]] + qt;
    }
  }

  /** Two ranked arrangements of the same indexes share their head, and their
      tails are again ranked arrangements of the same indexes. */
  lemma Tails(s: seq<real>, p: seq<nat>, q: seq<nat>) returns (pt: seq<nat>, qt: seq<nat>)
    requires InRange(p, |s|) && InRange(q, |s|) && multiset(p) == multiset(q)
    requires Ranked(s, p) && Ranked(s, q) && |p| > 0
    ensures |q| == |p| && q[0] == p[0] && pt == p[1..] && qt == q[1..]
    ensures InRange(pt, |s|) && InRange(qt, |s|) && multiset(pt) == multiset(qt)
    ensures Ranked(s, pt) && Ranked(s, qt)
  {
    SameHead(s, p, q);
    pt, qt := p[1..], q[1..];
    RankedTail(s, p);
    RankedTail(s, q);
    MultisetTail(p);
    MultisetTail(q);
  }

  lemma MultisetTail(p: seq<nat>)
    requires |p| > 0
    ensures multiset(p[1..]) == multiset(p) - multiset{p[0]}
  {
    assert p == [p[0]] + p[1..];
  }

  /** Two ranked arrangements of the same indexes start with the same index. */
  lemma SameHead(s: seq<real>, p: seq<nat>, q: seq<nat>)
    requires InRange(p, |s|) && InRange(q, |s|) && multiset(p) == multiset(q)
    requires Ranked(s, p) && Ranked(s, q) && |p| > 0
    ensures |q| == |p| && q[0] == p[0]
  {
    assert |q| == |multiset(q)| == |p|;
    assert p[0] in multiset(q) && q[0] in multiset(p);
    var i :| 0 <= i < |q| && q[i] == p[0];
    var j :| 0 <= j < |p| && p[j] == q[0];
    if p[0] != q[0] {
      assert false;
    }
  }

  lemma RankedTail(s: seq<real>, p: seq<nat>)
    requires InRange(p, |s|) && Ranked(s, p) && |p| > 0
    ensures InRange(p[1..], |s|) && Ranked(s, p[1..])
  {
    var t := p[1..];
    assert forall k :: 0 <= k < |t| ==> t[k] == p[k + 1];
  }

  /** Any ranked permutation of the indexes equals `Lexsort`. */
  lemma LexsortUnique(s: seq<real>, p: seq<nat>)
    requires multiset(p) == multiset(Range(|s|)) && InRange(p, |s|) && Ranked(s, p)
    ensures p == Lexsort(s)
  {
    LexsortPrefixRanked(s, |s|);
    RankedUnique(s, p, Lexsort(s));
  }

  function Row<T>(a: array2<T>, i: nat): (r: seq<T>)
    requires i < a.Length0
    reads a
    ensures |r| == a.Length1 && forall j :: 0 <= j < a.Length1 ==> r[j] == a[i, j]
  {
    seq(a.Length1, j requires 0 <= j < a.Length1 reads a => a[i, j])
  }

  function Column<T>(a: array2<T>, j: nat): (r: seq<T>)
    requires j < a.Length1
    reads a
    ensures |r| == a.Length0 && forall i :: 0 <= i < a.Length0 ==> r[i] == a[i, j]
  {
    seq(a.Length0, i requires 0 <= i < a.Length0 reads a => a[i, j])
  }

  /** `compute_orderings`: row i < numTuningParams of the score ordering is the
      lexsort of score row i, column i < |header| of the fold-change ordering the
      lexsort of fold-change column i; the shapes are those of the inputs and
      every other entry stays 0. */
  method ComputeOrderings(scores: array2<real>, numTuningParams: nat, foldChange: array2<real>, numHeader: nat)
    returns (byScore: array2<nat>, byFoldChange: array2<nat>)
    requires numTuningParams <= scores.Length0 && numHeader <= foldChange.Length1
    ensures fresh(byScore) && fresh(byFoldChange)
    ensures byScore.Length0 == scores.Length0 && byScore.Length1 == scores.Length1
    ensures byFoldChange.Length0 == foldChange.Length0 && byFoldChange.Length1 == foldChange.Length1
    ensures forall i :: 0 <= i < scores.Length0 ==>
              Row(byScore, i) == if i < numTuningParams then Lexsort(Row(scores, i)) else Sequences.Zeros(scores.Length1)
    ensures forall j :: 0 <= j < foldChange.Length1 ==>
              Column(byFoldChange, j) == if j < numHeader then Lexsort(Column(foldChange, j)) else Sequences.Zeros(foldChange.Length0)
  {
    byScore := OrderRows(scores, numTuningParams);
    byFoldChange := OrderColumns(foldChange, numHeader);
  }

  /** The first loop: `by_score_original[i] = lexsort(...)` for each tuning parameter. */
  method OrderRows(scores: array2<real>, count: nat) returns (result: array2<nat>)
    requires count <= scores.Length0
    ensures fresh(result) && result.Length0 == scores.Length0 && result.Length1 == scores.Length1
    ensures forall i :: 0 <= i < scores.Length0 ==>
              Row(result, i) == if i < count then Lexsort(Row(scores, i)) else Sequences.Zeros(scores.Length1)
  {
    result := new nat[scores.Length0, scores.Length1]((i, j) => 0);
    for i := 0 to count
      invariant forall i' :: 0 <= i' < i ==> Row(result, i') == Lexsort(Row(scores, i'))
      invariant forall i' :: i <= i' < scores.Length0 ==> Row(result, i') == Sequences.Zeros(scores.Length1)
    {
      var order := Lexsort(Row(scores, i));
      WriteRow(result, i, order);
      assert Row(result, i) == order;
    }
  }

  /** The second loop: `by_foldchange_original[..., i] = lexsort(...)` for each header entry. */
  method OrderColumns(foldChange: array2<real>, count: nat) returns (result: array2<nat>)
    requires count <= foldChange.Length1
    ensures fresh(result) && result.Length0 == foldChange.Length0 && result.Length1 == foldChange.Length1
    ensures forall j :: 0 <= j < foldChange.Length1 ==>
              Column(result, j) == if j < count then Lexsort(Column(foldChange, j)) else Sequences.Zeros(foldChange.Length0)
  {
    result := new nat[foldChange.Length0, foldChange.Length1]((i, j) => 0);
    for j := 0 to count
      invariant forall j' :: 0 <= j' < j ==> Column(result, j') == Lexsort(Column(foldChange, j'))
      invariant forall j' :: j <= j' < foldChange.Length1 ==> Column(result, j') == Sequences.Zeros(foldChange.Length0)
    {
      var order := Lexsort(Column(foldChange, j));
      WriteColumn(result, j, order);
      assert Column(result, j) == order;
    }
  }

  /** `a[i] = order`; the other rows are left alone. */
  method WriteRow(a: array2<nat>, i: nat, order: seq<nat>)
    requires i < a.Length0 && |order| == a.Length1
    modifies a
    ensures forall j :: 0 <= j < a.Length1 ==> a[i, j] == order[j]
    ensures forall i', j :: 0 <= i' < a.Length0 && i' != i && 0 <= j < a.Length1 ==> a[i', j] == old(a[i', j])
    ensures forall i' :: 0 <= i' < a.Length0 && i' != i ==> Row(a, i') == old(Row(a, i'))
  {
    for j := 0 to a.Length1
      invariant forall j' :: 0 <= j' < j ==> a[i, j'] == order[j']
      invariant forall i', j' :: 0 <= i' < a.Length0 && i' != i && 0 <= j' < a.Length1 ==> a[i', j'] == old(a[i', j'])
    {
      a[i, j] := order[j];
    }
  }

  /** `a[..., j] = order`; the other columns are left alone. */
  method WriteColumn(a: array2<nat>, j: nat, order: seq<nat>)
    requires j < a.Length1 && |order| == a.Length0
    modifies a
    ensures forall i :: 0 <= i < a.Length0 ==> a[i, j] == order[i]
    ensures forall i, j' :: 0 <= i < a.Length0 && 0 <= j' < a.Length1 && j' != j ==> a[i, j'] == old(a[i, j'])
    ensures forall j' :: 0 <= j' < a.Length1 && j' != j ==> Column(a, j') == old(Column(a, j'))
  {
    for i := 0 to a.Length0
      invariant forall i' :: 0 <= i' < i ==> a[i', j] == order[i']
      invariant forall i', j' :: 0 <= i' < a.Length0 && 0 <= j' < a.Length1 && j' != j ==> a[i', j'] == old(a[i', j'])
    {
      a[i, j] := order[i];
    }
  }

  /** The rows of a table, as values for the collaborators below. */
  function Rows(a: array2<real>): (r: seq<seq<real>>)
    reads a
    ensures |r| == a.Length0 && forall i :: 0 <= i < a.Length0 ==> r[i] == Row(a, i)
  {
    seq(a.Length0, i requires 0 <= i < a.Length0 reads a => Row(a, i))
  }

  /** `compute_conf_scores`: the unpermuted counts are `cumulative_hist(raw, bins)`,
      the bin scores `confidence_scores(unperm, perm, np.shape(raw)[-1])` with the
      length of raw's last axis as the feature count, and the feature scores
      `assign_scores_to_features(raw, bins, bin_to_score)`. The three helpers are
      not part of this model and are parameters. */
  method ComputeConfScores<B, C, S, F>(raw: array2<real>, bins: B, permCounts: C,
                                        cumulativeHist: (seq<seq<real>>, B) -> C,
                                        confidenceScores: (C, C, nat) -> S,
                                        assignScores: (seq<seq<real>>, B, S) -> F)
    returns (unpermCounts: C, binToScore: S, featureToScore: F)
    ensures unpermCounts == cumulativeHist(Rows(raw), bins)
    ensures binToScore == confidenceScores(unpermCounts, permCounts, raw.Length1)
    ensures featureToScore == assignScores(Rows(raw), bins, binToScore)
  {
    var rows := seq(raw.Length0, i requires 0 <= i < raw.Length0 reads raw =>
                      seq(raw.Length1, j requires 0 <= j < raw.Length1 reads raw => raw[i, j]));
    assert forall i :: 0 <= i < raw.Length0 ==> rows[i] == Row(raw, i);
    assert rows == Rows(raw);
    unpermCounts := cumulativeHist(rows, bins);
    binToScore := confidenceScores(unpermCounts, permCounts, raw.Length1);
    featureToScore := assignScores(rows, bins, binToScore);
  }
}
