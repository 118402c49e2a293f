/** The computations inside the web views of the newer code base
    (pade/server.py): the per-feature bin lookup and recomputed scores of
    `feature()`, and the ordering, score filter, page slice and page count of
    `details()`. Rendering and the request plumbing are not modelled. */
module PadeServer {
  import opened Wrappers
  import opened PageBins
  import opened BiasCorrection
  import PageScores
  import PadeTasks

  /** `bins = [bisect(db.bins[i], stats[i]) - 1 for i in range(len(params))]`. */
  function FeatureBins(edges: seq<seq<Edge>>, stats: seq<real>, numParams: nat): (r: seq<int>)
    requires numParams <= |edges| && numParams <= |stats|
    ensures |r| == numParams
    ensures forall i :: 0 <= i < numParams ==> r[i] == BisectRight(edges[i], stats[i]) - 1
  {
    seq(numParams, i requires 0 <= i < numParams => BinOf(stats[i], edges[i]))
  }

  /** On monotone edges the bin brackets the statistic: bin -1 means it is below
      the first edge, and otherwise the bin's edge is at most the statistic and
      the next edge, if any, is above it. */
  lemma FeatureBinsBracket(edges: seq<seq<Edge>>, stats: seq<real>, numParams: nat, i: nat)
    requires numParams <= |edges| && numParams <= |stats| && i < numParams && Monotone(edges[i])
    ensures var b := FeatureBins(edges, stats, numParams)[i];
            -1 <= b < |edges[i]| &&
            (b == -1 <==> |edges[i]| == 0 || !EdgeAtMost(edges[i][0], stats[i])) &&
            (b >= 0 ==> EdgeAtMost(edges[i][b], stats[i])) &&
            (0 <= b + 1 < |edges[i]| ==> !EdgeAtMost(edges[i][b + 1], stats[i]))
  {
    BisectRightSplits(edges[i], stats[i]);
  }

  /** One recomputed score: `(unperm - adjust_num_diff(mean_perm, unperm, n)) / unperm`,
      with no zero guard; a zero count (inf or nan in numpy) is None. */
  function NewScore(unperm: real, meanPerm: real, numIds: real): Option<real>
    requires numIds != 0.0
  {
    if unperm == 0.0 then None else Some((unperm - Adjusted(meanPerm, unperm, numIds)) / unperm)
  }

  /** The recomputed score agrees with the core's `fill_bin` wherever the
      unpermuted count is positive, and differs from it only by the missing
      guard: a zero count has no score where `fill_bin` gives 0. */
  lemma NewScoreMatchesFillBin(unperm: real, meanPerm: real, numIds: real)
    requires numIds != 0.0
    ensures unperm > 0.0 ==> NewScore(unperm, meanPerm, numIds) == Some(FillBin(unperm, meanPerm, numIds))
    ensures unperm == 0.0 ==> NewScore(unperm, meanPerm, numIds) == None && FillBin(unperm, meanPerm, numIds) == 0.0
  {
  }

  /** `unperm_count`, `mean_perm_count` and `new_scores` of `feature()`: each
      tuning parameter's counts are read at its bin with numpy indexing (a bin
      of -1 reads the last entry); an index out of range raises (outer None). */
  function FeatureScores(unpermCounts: seq<seq<real>>, meanPermCounts: seq<seq<real>>, bins: seq<int>, numIds: real)
    : (r: Option<seq<Option<real>>>)
    requires numIds != 0.0 && |bins| <= |unpermCounts| && |bins| <= |meanPermCounts|
    ensures r.Some? <==> forall i :: 0 <= i < |bins| ==>
              PageScores.PyIndex(unpermCounts[i], bins[i]).Some? && PageScores.PyIndex(meanPermCounts[i], bins[i]).Some?
    ensures r.Some? ==> (|r.value| == |bins| &&
              forall i :: 0 <= i < |bins| ==>
                r.value[i] == NewScore(PageScores.PyIndex(unpermCounts[i], bins[i]).value,
                                       PageScores.PyIndex(meanPermCounts[i], bins[i]).value, numIds))
  {
    if forall i :: 0 <= i < |bins| ==>
         PageScores.PyIndex(unpermCounts[i], bins[i]).Some? && PageScores.PyIndex(meanPermCounts[i], bins[i]).Some?
    then
      Some(seq(|bins|, i requires 0 <= i < |bins| =>
        NewScore(PageScores.PyIndex(unpermCounts[i], bins[i]).value,
                 PageScores.PyIndex(meanPermCounts[i], bins[i]).value, numIds)))
    else None
  }

  /** A statistic below the first edge reads the last bin's counts. */
  lemma BelowFirstEdgeWraps(counts: seq<real>)
    requires |counts| > 0
    ensures PageScores.PyIndex(counts, -1) == Some(counts[|counts| - 1])
  {
  }

  /** `filtered_idxs = all_idxs[scores[all_idxs] > min_score]`; an index outside
      `scores` raises (None). */
  function Filter(allIdxs: seq<nat>, scores: seq<real>, minScore: real): (r: Option<seq<nat>>)
    ensures r.Some? <==> forall k :: 0 <= k < |allIdxs| ==> allIdxs[k] < |scores|
  {
    if |allIdxs| == 0 then Some([])
    else
      var last := allIdxs[|allIdxs| - 1];
      match Filter(allIdxs[..|allIdxs| - 1], scores, minScore)
      case None => None
      case Some(front) =>
        if last >= |scores| then None
        else if scores[last] > minScore then Some(front + [last]) else Some(front)
  }

  /** The filter keeps exactly the indexes whose score exceeds the minimum, in
      their original order: the entry at position k of the input survives iff its
      score is above the minimum, and the output lists the survivors by position. */
  lemma {:induction false} FilterKeeps(allIdxs: seq<nat>, scores: seq<real>, minScore: real)
    requires forall k :: 0 <= k < |allIdxs| ==> allIdxs[k] < |scores|
    ensures var r := Filter(allIdxs, scores, minScore).value;
            |r| == |Survivors(allIdxs, scores, minScore)| &&
            forall m :: 0 <= m < |r| ==> r[m] == allIdxs[Survivors(allIdxs, scores, minScore)[m]]
  {
    if |allIdxs| > 0 {
      var front := allIdxs[..|allIdxs| - 1];
      FilterKeeps(front, scores, minScore);
    }
  }

  /** Positions of the input whose score exceeds the minimum, in increasing order. */
  function Survivors(allIdxs: seq<nat>, scores: seq<real>, minScore: real): (p: seq<nat>)
    requires forall k :: 0 <= k < |allIdxs| ==> allIdxs[k] < |scores|
    ensures forall m :: 0 <= m < |p| ==> p[m] < |allIdxs| && scores[allIdxs[p[m]]] > minScore
    ensures forall m, m' :: 0 <= m < m' < |p| ==> p[m] < p[m']
    ensures forall k :: 0 <= k < |allIdxs| && scores[allIdxs[k]] > minScore ==> k in p
  {
    if |allIdxs| == 0 then []
    else
      var n := |allIdxs| - 1;
      var init := allIdxs[..n];
      assert forall k :: 0 <= k < |init| ==> init[k] == allIdxs[k];
      var front := Survivors(init, scores, minScore);
      if scores[allIdxs[n]] > minScore then front + [n] else front
  }

  const RowsPerPage: nat := 50

  /** Python's slice bound normalisation: negative counts from the end, then
      clamped into [0, n]. */
  function SliceBound(b: int, n: nat): (r: nat)
    ensures r <= n
  {
    var c := if b < 0 then b + n else b;
    if c < 0 then 0 else if c > n then n else c
  }

  /** `s[start:end]` with Python semantics. */
  function PySlice<T>(s: seq<T>, start: int, end: int): (r: seq<T>)
    ensures |r| <= |s|
  {
    var a, b := SliceBound(start, |s|), SliceBound(end, |s|);
    if a < b then s[a..b] else []
  }

  /** `filtered_idxs[page_num * 50 : page_num * 50 + 50]`. */
  function Page(filtered: seq<nat>, pageNum: int): seq<nat>
  {
    PySlice(filtered, pageNum * RowsPerPage, pageNum * RowsPerPage + RowsPerPage)
  }

  /** `int(np.ceil(len(filtered) / 50.0))`. */
  function NumPages(n: nat): nat
  {
    (n + RowsPerPage - 1) / RowsPerPage
  }

  /** No page, for any page number, holds more than 50 entries. */
  lemma PageAtMostRows(filtered: seq<nat>, pageNum: int)
    ensures |Page(filtered, pageNum)| <= RowsPerPage
  {
  }

  /** The page count is the least number of pages of 50 that holds every entry. */
  lemma NumPagesIsCeiling(n: nat)
    ensures NumPages(n) * RowsPerPage >= n
    ensures n > 0 ==> (NumPages(n) - 1) * RowsPerPage < n
    ensures n == 0 ==> NumPages(n) == 0
  {
  }

  /** Every filtered entry is on exactly the page its position says, and that page
      is one of the counted pages. */
  lemma EntryOnItsPage(filtered: seq<nat>, k: nat)
    requires k < |filtered|
    ensures k / RowsPerPage < NumPages(|filtered|)
    ensures k % RowsPerPage < |Page(filtered, k / RowsPerPage)|
    ensures Page(filtered, k / RowsPerPage)[k % RowsPerPage] == filtered[k]
  {
    var p := k / RowsPerPage;
    assert p * RowsPerPage <= k < p * RowsPerPage + RowsPerPage;
  }

  /** Why `details()` raises: an unknown `order` leaves `all_idxs` as None, or an
      index falls outside the scores. */
  datatype DetailsError = UnknownOrder | IndexOutOfRange

  /** The index list `details()` starts from: the identity without an `order`,
      the score ordering of the chosen tuning parameter, or column 1 of the
      fold-change ordering. */
  function OrderIndexes(order: Option<string>, numFeatures: nat, byScore: seq<nat>, byFoldChangeColumn1: seq<nat>)
    : (r: Result<seq<nat>, DetailsError>)
    ensures order.None? ==> r == Ok(PadeTasks.Range(numFeatures))
    ensures r.Err? <==> order.Some? && order.value != "score_original" && order.value != "foldchange_original"
  {
    match order
    case None => Ok(PadeTasks.Range(numFeatures))
    case Some(name) =>
      if name == "score_original" then Ok(byScore)
      else if name == "foldchange_original" then Ok(byFoldChangeColumn1)
      else Err(UnknownOrder)
  }

  /** The page of `details()` together with the page count. */
  function Details(order: Option<string>, numFeatures: nat, byScore: seq<nat>, byFoldChangeColumn1: seq<nat>,
                   scores: seq<real>, minScore: real, pageNum: int): (r: Result<(seq<nat>, nat), DetailsError>)
    ensures r.Ok? ==> |r.value.0| <= RowsPerPage
  {
    match OrderIndexes(order, numFeatures, byScore, byFoldChangeColumn1)
    case Err(e) => Err(e)
    case Ok(all) =>
      match Filter(all, scores, minScore)
      case None => Err(IndexOutOfRange)
      case Some(filtered) =>
        PageAtMostRows(filtered, pageNum);
        Ok((Page(filtered, pageNum), NumPages(|filtered|)))
  }

  /** Without an `order`, on scores for every feature, the first page lists the
      first (up to 50) features whose score exceeds the minimum, in index order. */
  lemma DetailsDefaultOrder(numFeatures: nat, byScore: seq<nat>, byFoldChangeColumn1: seq<nat>,
                            scores: seq<real>, minScore: real)
    requires |scores| == numFeatures
    ensures var r := Details(None, numFeatures, byScore, byFoldChangeColumn1, scores, minScore, 0);
            var all := PadeTasks.Range(numFeatures);
            r.Ok? && Filter(all, scores, minScore).Some? &&
            r.value.0 == Page(Filter(all, scores, minScore).value, 0) &&
            r.value.1 == NumPages(|Filter(all, scores, minScore).value|)
  {
  }
}
