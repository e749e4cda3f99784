/** The bounded objective shared by the `emcee` and `dynesty` backends:
    `ln_like`, `lnprior` and `lnprob`.

    `ln_like` clips the parameter vector into its box IN PLACE and rejects
    (returns minus infinity for) any vector that was outside the box; the
    clipped vector is what the caller then hands to `lnprior`. The model
    returns that clipped vector alongside the log-likelihood, so that
    `LnProb` sees exactly what the source's `lnprior` sees. */
module Objective {
  import opened Floats
  import opened Likelihood

  /** Bound vectors as wide as the parameter vector. */
  predicate Shaped(theta: seq<ExtReal>, lo: seq<ExtReal>, hi: seq<ExtReal>)
  {
    |lo| == |theta| && |hi| == |theta|
  }

  /** Every lower bound is at most its upper bound. */
  predicate Ordered(lo: seq<ExtReal>, hi: seq<ExtReal>)
  {
    |lo| == |hi| && forall i :: 0 <= i < |lo| ==> Le(lo[i], hi[i])
  }

  /** `pmin[i] <= theta[i] <= pmax[i]` for every coordinate (bounds inclusive). */
  predicate InBounds(theta: seq<ExtReal>, lo: seq<ExtReal>, hi: seq<ExtReal>)
    requires Shaped(theta, lo, hi)
  {
    forall i :: 0 <= i < |theta| ==> Le(lo[i], theta[i]) && Le(theta[i], hi[i])
  }

  /** One coordinate after `theta[ilow] = pmin[ilow]; theta[ihi] = pmax[ihi]`,
      where both index sets are taken from the unclipped vector, so the upper
      bound wins when a coordinate is below `pmin` and above `pmax` at once. */
  function ClipOne(t: ExtReal, lo: ExtReal, hi: ExtReal): ExtReal
  {
    if Lt(hi, t) then hi else if Lt(t, lo) then lo else t
  }

  /** The in-place clipping step of `ln_like`. */
  function Clip(theta: seq<ExtReal>, lo: seq<ExtReal>, hi: seq<ExtReal>): (c: seq<ExtReal>)
    requires Shaped(theta, lo, hi)
    ensures Shaped(c, lo, hi)
    ensures Ordered(lo, hi) ==> InBounds(c, lo, hi)
    ensures forall i :: 0 <= i < |theta| && Le(lo[i], theta[i]) && Le(theta[i], hi[i]) ==> c[i] == theta[i]
    ensures forall i :: 0 <= i < |theta| && Lt(theta[i], lo[i]) && Le(lo[i], hi[i]) ==> c[i] == lo[i]
    ensures forall i :: 0 <= i < |theta| && Lt(hi[i], theta[i]) ==> c[i] == hi[i]
  {
    seq(|theta|, i requires 0 <= i < |theta| && Shaped(theta, lo, hi) => ClipOne(theta[i], lo[i], hi[i]))
  }

  /** What `ln_like` leaves behind: the (clipped) vector and its value. */
  datatype LikeOutcome = LikeOutcome(theta: seq<ExtReal>, value: ExtReal)

  /** `ln_like(theta, lc, model, pmin, pmax)`. The model's `update` and
      `eval` are the uninterpreted `eval`, a function of the parameter
      vector; `logNorm` stands for `log(2πσ²)`. */
  function LnLike(theta: seq<ExtReal>, lo: seq<ExtReal>, hi: seq<ExtReal>, lc: LightCurve,
                  eval: seq<ExtReal> -> seq<real>, logNorm: real -> real): (o: LikeOutcome)
    requires Shaped(theta, lo, hi) && lc.Valid()
    requires |eval(Clip(theta, lo, hi))| == |lc.flux|
    ensures o.theta == Clip(theta, lo, hi)
    ensures o.value == NegInf <==> !InBounds(theta, lo, hi)
    ensures InBounds(theta, lo, hi) ==>
              o.theta == theta
              && o.value == Fin(GaussianLogLike(Residuals(lc.flux, eval(theta)), lc.unc, logNorm))
  {
    var c := Clip(theta, lo, hi);
    var value := GaussianLogLike(Residuals(lc.flux, eval(c)), lc.unc, logNorm);
    if InBounds(theta, lo, hi) then
      assert c == theta;
      LikeOutcome(c, Fin(value))
    else
      LikeOutcome(c, NegInf)
  }

  /** `lnprior(theta, pmin, pmax)`: start at 0 and add minus infinity for
      every coordinate outside its bounds. */
  function LnPrior(theta: seq<ExtReal>, lo: seq<ExtReal>, hi: seq<ExtReal>): (lp: ExtReal)
    requires Shaped(theta, lo, hi)
    ensures lp == Fin(0.0) <==> InBounds(theta, lo, hi)
    ensures lp == NegInf <==> !InBounds(theta, lo, hi)
  {
    if |theta| == 0 then Fin(0.0)
    else
      var n := |theta| - 1;
      var acc := LnPrior(theta[..n], lo[..n], hi[..n]);
      var out := Lt(theta[n], lo[n]) || Lt(hi[n], theta[n]);
      assert InBounds(theta, lo, hi) <==> InBounds(theta[..n], lo[..n], hi[..n]) && !out by {
        if InBounds(theta[..n], lo[..n], hi[..n]) && !out {
          forall i | 0 <= i < |theta|
            ensures Le(lo[i], theta[i]) && Le(theta[i], hi[i])
          {
            if i < n {
              assert theta[..n][i] == theta[i] && lo[..n][i] == lo[i] && hi[..n][i] == hi[i];
            } else {
              LeTotal(lo[n], theta[n]);
              LeTotal(theta[n], hi[n]);
            }
          }
        }
      }
      if out then Plus(acc, NegInf) else acc
  }

  /** `lnprob = ln_like + lnprior`, where `lnprior` is evaluated on the
      vector `ln_like` has already clipped. */
  function LnProb(theta: seq<ExtReal>, lo: seq<ExtReal>, hi: seq<ExtReal>, lc: LightCurve,
                  eval: seq<ExtReal> -> seq<real>, logNorm: real -> real): (lp: ExtReal)
    requires Shaped(theta, lo, hi) && lc.Valid()
    requires |eval(Clip(theta, lo, hi))| == |lc.flux|
    ensures lp == NegInf || lp.Fin?
  {
    var o := LnLike(theta, lo, hi, lc, eval, logNorm);
    Plus(o.value, LnPrior(o.theta, lo, hi))
  }

  /** With ordered bounds the prior term inside `lnprob` is always zero,
      because it only ever sees the clipped vector: rejection comes from
      `ln_like` alone, and an out-of-bounds draw is still rejected. */
  lemma PriorTermVanishes(theta: seq<ExtReal>, lo: seq<ExtReal>, hi: seq<ExtReal>, lc: LightCurve,
                          eval: seq<ExtReal> -> seq<real>, logNorm: real -> real)
    requires Shaped(theta, lo, hi) && lc.Valid() && Ordered(lo, hi)
    requires |eval(Clip(theta, lo, hi))| == |lc.flux|
    ensures LnPrior(LnLike(theta, lo, hi, lc, eval, logNorm).theta, lo, hi) == Fin(0.0)
    ensures LnProb(theta, lo, hi, lc, eval, logNorm) == LnLike(theta, lo, hi, lc, eval, logNorm).value
    ensures LnProb(theta, lo, hi, lc, eval, logNorm) == NegInf <==> !InBounds(theta, lo, hi)
  {
  }

  /** Without ordered bounds the prior does bite: a coordinate whose lower
      bound exceeds its upper bound is clipped to the upper bound, which the
      prior then rejects. */
  lemma PriorRejectsCrossedBounds(theta: seq<ExtReal>, lo: seq<ExtReal>, hi: seq<ExtReal>, i: nat)
    requires Shaped(theta, lo, hi) && i < |theta| && Lt(hi[i], lo[i])
    ensures LnPrior(Clip(theta, lo, hi), lo, hi) == NegInf
  {
    var c := Clip(theta, lo, hi);
    LeTotal(lo[i], c[i]);
    LeTotal(c[i], hi[i]);
    LeTotal(hi[i], lo[i]);
    if Le(lo[i], c[i]) && Le(c[i], hi[i]) {
      LeTrans(lo[i], c[i], hi[i]);
    }
  }
}
