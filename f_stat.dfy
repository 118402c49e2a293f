/** The F ratio both generations of the F-test compute from the two residual sums
    of squares, with the optional ridge ("tuning parameters") added to the
    denominator. A zero denominator, where numpy gives inf or nan, is None. */
module FStat {
  import opened Wrappers

  /** One value without tuning parameters, one value per tuning parameter with them. */
  datatype FValue = Single(value: real) | PerAlpha(values: seq<real>)

  /** numer = (rss_red - rss_full) / (p_full - p_red), denom = rss_full / (n - p_full). */
  function Numer(rssRed: real, rssFull: real, pFull: int, pRed: int): real
    requires pFull != pRed
  {
    (rssRed - rssFull) / (pFull - pRed) as real
  }

  function Denom(rssFull: real, pFull: int, n: int): real
    requires n != pFull
  {
    rssFull / (n - pFull) as real
  }

  /** `numer / denom`, or `numer / (denom + alpha)` for every alpha. */
  function FRatio(rssRed: real, rssFull: real, pFull: int, pRed: int, n: int, alphas: Option<seq<real>>)
    : (r: Option<FValue>)
    ensures r.Some? <==>
              pFull != pRed && n != pFull &&
              (alphas.None? ==> Denom(rssFull, pFull, n) != 0.0) &&
              (alphas.Some? ==> forall k :: 0 <= k < |alphas.value| ==> Denom(rssFull, pFull, n) + alphas.value[k] != 0.0)
    ensures r.Some? ==> (alphas.None? <==> r.value.Single?)
    ensures r.Some? && alphas.Some? ==> |r.value.values| == |alphas.value|
  {
    if pFull == pRed || n == pFull then None
    else
      var numer, denom := Numer(rssRed, rssFull, pFull, pRed), Denom(rssFull, pFull, n);
      match alphas
      case None => if denom == 0.0 then None else Some(Single(numer / denom))
      case Some(a) =>
        if exists k :: 0 <= k < |a| && denom + a[k] == 0.0 then None
        else Some(PerAlpha(seq(|a|, k requires 0 <= k < |a| => numer / (denom + a[k]))))
  }

  /** Row k of the tuned result is the plain ratio with alphas[k] added to its
      denominator; in particular an alpha of 0 reproduces the plain value. */
  lemma FRatioRow(rssRed: real, rssFull: real, pFull: int, pRed: int, n: int, alphas: seq<real>, k: nat)
    requires FRatio(rssRed, rssFull, pFull, pRed, n, Some(alphas)).Some? && k < |alphas|
    ensures FRatio(rssRed, rssFull, pFull, pRed, n, Some(alphas)).value.values[k] ==
              Numer(rssRed, rssFull, pFull, pRed) / (Denom(rssFull, pFull, n) + alphas[k])
    ensures alphas[k] == 0.0 ==>
              FRatio(rssRed, rssFull, pFull, pRed, n, None) ==
              Some(Single(FRatio(rssRed, rssFull, pFull, pRed, n, Some(alphas)).value.values[k]))
  {
  }

  /** A non-negative ridge never raises a non-negative F ratio with a positive
      denominator. */
  lemma FRatioShrinks(rssRed: real, rssFull: real, pFull: int, pRed: int, n: int, alphas: seq<real>, k: nat)
    requires pFull != pRed && n != pFull && k < |alphas| && alphas[k] >= 0.0
    requires Numer(rssRed, rssFull, pFull, pRed) >= 0.0 && Denom(rssFull, pFull, n) > 0.0
    ensures FRatio(rssRed, rssFull, pFull, pRed, n, None).Some?
    ensures FRatio(rssRed, rssFull, pFull, pRed, n, Some(alphas)).Some? ==>
              FRatio(rssRed, rssFull, pFull, pRed, n, Some(alphas)).value.values[k] <=
              FRatio(rssRed, rssFull, pFull, pRed, n, None).value.value
  {
    var numer, denom := Numer(rssRed, rssFull, pFull, pRed), Denom(rssFull, pFull, n);
    var d2 := denom + alphas[k];
    assert d2 >= denom > 0.0;
    var q1, q2 := numer / denom, numer / d2;
    assert q1 * denom == numer && q2 * d2 == numer;
    assert q2 * d2 == q1 * denom;
    if q2 > q1 {
      assert q2 * d2 > q1 * d2 >= q1 * denom;
    }
  }
}
