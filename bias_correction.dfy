/** The five-step bias correction of the null count that both generations of
    the scorer use (`adjust_num_diff`), stated once as a recurrence over reals,
    together with the score that `fill_bin` derives from it. */
module BiasCorrection {

  /** V[k] of the recurrence V[0] = v0, V[k] = V[0] - V[0]/numIds * (r - V[k-1]). */
  function Iterate(v0: real, r: real, numIds: real, k: nat): real
    requires numIds != 0.0
  {
    if k == 0 then v0 else v0 - v0 / numIds * (r - Iterate(v0, r, numIds, k - 1))
  }

  /** The corrected null count: the fifth iterate. */
  function Adjusted(v0: real, r: real, numIds: real): real
    requires numIds != 0.0
  {
    Iterate(v0, r, numIds, 5)
  }

  /** With no null count there is nothing to correct. */
  lemma {:induction false} ZeroNullStaysZero(r: real, numIds: real, k: nat)
    requires numIds != 0.0
    ensures Iterate(0.0, r, numIds, k) == 0.0
  {
    if k > 0 { ZeroNullStaysZero(r, numIds, k - 1); }
  }

  /** When the observed count equals the null count, every iterate is that count. */
  lemma {:induction false} EqualCountsFixed(v0: real, numIds: real, k: nat)
    requires numIds != 0.0
    ensures Iterate(v0, v0, numIds, k) == v0
  {
    if k > 0 { EqualCountsFixed(v0, numIds, k - 1); }
  }

  /** For a non-negative null count below the observed count the correction never
      raises the null count (so the result is not bracketed by v0 and r). */
  lemma AdjustedAtMostNull(v0: real, r: real, numIds: real)
    requires numIds > 0.0 && 0.0 <= v0 <= r
    ensures Adjusted(v0, r, numIds) <= v0
  {
    IterateAtMostNull(v0, r, numIds, 5);
  }

  /** Every iterate stays at or below v0: each step subtracts a non-negative multiple
      of r minus the previous iterate, which is at least r - v0 >= 0. */
  lemma {:induction false} IterateAtMostNull(v0: real, r: real, numIds: real, k: nat)
    requires numIds > 0.0 && 0.0 <= v0 <= r
    ensures Iterate(v0, r, numIds, k) <= v0
  {
    if k > 0 {
      IterateAtMostNull(v0, r, numIds, k - 1);
      var a := v0 / numIds;
      QuotientNonNegative(v0, numIds);
      ProductNonNegative(a, r - Iterate(v0, r, numIds, k - 1));
    }
  }

  lemma QuotientNonNegative(x: real, y: real)
    requires x >= 0.0 && y > 0.0
    ensures x / y >= 0.0
  {
  }

  lemma ProductNonNegative(x: real, y: real)
    requires x >= 0.0 && y >= 0.0
    ensures x * y >= 0.0
  {
  }

  /** The hand-computed run V0 = 10, R = 20, num_ids = 100: 9, 8.9, 8.89, 8.889, 8.8889. */
  lemma WorkedExample()
    ensures Iterate(10.0, 20.0, 100.0, 1) == 9.0
    ensures Iterate(10.0, 20.0, 100.0, 2) == 8.9
    ensures Iterate(10.0, 20.0, 100.0, 3) == 8.89
    ensures Iterate(10.0, 20.0, 100.0, 4) == 8.889
    ensures Adjusted(10.0, 20.0, 100.0) == 8.8889
  {
    assert Iterate(10.0, 20.0, 100.0, 0) == 10.0;
  }

  /** `fill_bin`: the confidence score of one bin from the observed count `unperm`
      and the mean permuted count `perm`, 0 when nothing was observed. */
  function FillBin(unperm: real, perm: real, m: real): real
    requires unperm > 0.0 ==> m != 0.0
  {
    if unperm > 0.0 then (unperm - Adjusted(perm, unperm, m)) / unperm else 0.0
  }

  /** A bin with nothing observed scores 0, whatever the feature count. */
  lemma FillBinNoObservations(unperm: real, perm: real, m: real)
    requires unperm <= 0.0
    ensures FillBin(unperm, perm, m) == 0.0
  {
  }

  /** A bin with no null count gets full confidence. */
  lemma FillBinNoNull(unperm: real, m: real)
    requires m != 0.0 && unperm > 0.0
    ensures FillBin(unperm, 0.0, m) == 1.0
  {
    ZeroNullStaysZero(unperm, m, 5);
  }

  /** A null count no larger than the observed count never gives a negative score. */
  lemma FillBinNonNegative(unperm: real, perm: real, m: real)
    requires m > 0.0 && 0.0 <= perm <= unperm
    ensures FillBin(unperm, perm, m) >= 0.0
  {
    if unperm > 0.0 {
      AdjustedAtMostNull(perm, unperm, m);
      assert unperm - Adjusted(perm, unperm, m) >= 0.0;
    }
  }
}
