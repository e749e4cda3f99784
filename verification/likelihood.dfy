/** Goodness of fit of a model light curve: residuals, chi-square, the
    Gaussian log-likelihood used by the samplers, and the reduced chi-square
    each fitting backend reports. */
module Likelihood {
  import opened Floats
  import opened Arrays

  /** A light curve's flux and its per-point uncertainty. */
  datatype LightCurve = LightCurve(flux: seq<real>, unc: seq<real>)
  {
    /** Flux and uncertainty are parallel and no uncertainty is zero
        (a zero uncertainty would make every weighted residual infinite). */
    predicate Valid()
    {
      |unc| == |flux| && NonZero(unc)
    }
  }

  /** The fitting backends whose reduced chi-square conventions differ. */
  datatype Backend = LeastSquares | Emcee | Dynesty

  predicate NonZero(s: seq<real>)
  {
    forall i :: 0 <= i < |s| ==> s[i] != 0.0
  }

  function Square(x: real): real
  {
    x * x
  }

  /** `lc.flux - model_lc`. */
  function Residuals(flux: seq<real>, model: seq<real>): (r: seq<real>)
    requires |model| == |flux|
    ensures |r| == |flux|
    ensures forall i :: 0 <= i < |r| ==> model[i] + r[i] == flux[i]
  {
    seq(|flux|, i requires 0 <= i < |flux| => flux[i] - model[i])
  }

  /** `np.sum((residuals / lc.unc) ** 2)`. */
  function ChiSquare(resid: seq<real>, unc: seq<real>): (c: real)
    requires |unc| == |resid| && NonZero(unc)
    ensures c >= 0.0
  {
    if |resid| == 0 then 0.0
    else
      var n := |resid| - 1;
      ChiSquare(resid[..n], unc[..n]) + Square(resid[n] / unc[n])
  }

  /** The chi-square vanishes exactly when every residual is zero. */
  lemma {:induction false} ChiSquareZero(resid: seq<real>, unc: seq<real>)
    requires |unc| == |resid| && NonZero(unc)
    ensures ChiSquare(resid, unc) == 0.0 <==> forall i :: 0 <= i < |resid| ==> resid[i] == 0.0
  {
    if |resid| > 0 {
      var n := |resid| - 1;
      ChiSquareZero(resid[..n], unc[..n]);
      assert Square(resid[n] / unc[n]) == 0.0 <==> resid[n] == 0.0;
      if forall i :: 0 <= i < |resid| ==> resid[i] == 0.0 {
        assert forall i :: 0 <= i < n ==> resid[..n][i] == 0.0;
      }
      if ChiSquare(resid, unc) == 0.0 {
        assert forall i :: 0 <= i < n ==> resid[..n][i] == 0.0;
        forall i | 0 <= i < |resid|
          ensures resid[i] == 0.0
        {
          if i < n {
            assert resid[..n][i] == 0.0;
          }
        }
      }
    }
  }

  /** The per-point terms `(r/σ)² + log(2πσ²)`; `logNorm(σ)` stands for the
      transcendental `log(2πσ²)`, which the model leaves uninterpreted. */
  function LogLikeTerms(resid: seq<real>, unc: seq<real>, logNorm: real -> real): (t: seq<real>)
    requires |unc| == |resid| && NonZero(unc)
    ensures |t| == |resid|
  {
    seq(|resid|, i requires 0 <= i < |resid| && |unc| == |resid| && NonZero(unc) =>
          Square(resid[i] / unc[i]) + logNorm(unc[i]))
  }

  /** `-0.5 * np.sum((residuals / lc.unc) ** 2 + np.log(2 * np.pi * lc.unc ** 2))`. */
  function GaussianLogLike(resid: seq<real>, unc: seq<real>, logNorm: real -> real): real
    requires |unc| == |resid| && NonZero(unc)
  {
    -0.5 * Sum(LogLikeTerms(resid, unc, logNorm))
  }

  /** The normalisation `np.sum(np.log(2 * np.pi * lc.unc ** 2))`, which
      depends on the uncertainties only. */
  function LogNormSum(unc: seq<real>, logNorm: real -> real): real
  {
    if |unc| == 0 then 0.0 else LogNormSum(unc[..|unc| - 1], logNorm) + logNorm(unc[|unc| - 1])
  }

  /** The Gaussian log-likelihood is minus half the chi-square, shifted by a
      term that does not depend on the residuals. */
  lemma {:induction false} GaussianIsShiftedChiSquare(resid: seq<real>, unc: seq<real>, logNorm: real -> real)
    requires |unc| == |resid| && NonZero(unc)
    ensures GaussianLogLike(resid, unc, logNorm) == -0.5 * (ChiSquare(resid, unc) + LogNormSum(unc, logNorm))
  {
    TermsSum(resid, unc, logNorm);
  }

  lemma {:induction false} TermsSum(resid: seq<real>, unc: seq<real>, logNorm: real -> real)
    requires |unc| == |resid| && NonZero(unc)
    ensures Sum(LogLikeTerms(resid, unc, logNorm)) == ChiSquare(resid, unc) + LogNormSum(unc, logNorm)
  {
    if |resid| > 0 {
      var n := |resid| - 1;
      var t := LogLikeTerms(resid, unc, logNorm);
      assert t[..n] == LogLikeTerms(resid[..n], unc[..n], logNorm);
      TermsSum(resid[..n], unc[..n], logNorm);
      assert unc[..n] == unc[..|unc| - 1];
    }
  }

  /** For a fixed set of uncertainties the log-likelihood orders fits
      exactly opposite to the chi-square. */
  lemma LikelihoodOrdersByChiSquare(r1: seq<real>, r2: seq<real>, unc: seq<real>, logNorm: real -> real)
    requires |unc| == |r1| && |unc| == |r2| && NonZero(unc)
    ensures GaussianLogLike(r1, unc, logNorm) <= GaussianLogLike(r2, unc, logNorm)
            <==> ChiSquare(r2, unc) <= ChiSquare(r1, unc)
  {
    GaussianIsShiftedChiSquare(r1, unc, logNorm);
    GaussianIsShiftedChiSquare(r2, unc, logNorm);
  }

  /** The number of degrees of freedom a backend divides by: the least-squares
      backend subtracts the free-parameter count, the samplers do not. */
  function Dof(backend: Backend, npoints: nat, nfree: nat): int
  {
    if backend == LeastSquares then npoints - nfree else npoints
  }

  /** The reduced chi-square `chi2 / dof`; `None` when `dof` is zero, where
      NumPy yields an infinity or NaN instead of a number. */
  function ReducedChiSquare(backend: Backend, chi2: real, npoints: nat, nfree: nat): (r: Option<real>)
    ensures r.None? <==> (if backend == LeastSquares then npoints == nfree else npoints == 0)
    ensures r.Some? ==> r.value * Dof(backend, npoints, nfree) as real == chi2
  {
    var d := Dof(backend, npoints, nfree);
    if d == 0 then None else Some(chi2 / d as real)
  }

  /** The reduced chi-square a backend reports for a model light curve:
      the chi-square of `flux - model` over the backend's degrees of freedom. */
  function BackendChi2Red(backend: Backend, lc: LightCurve, model: seq<real>, nfree: nat): (r: Option<real>)
    requires lc.Valid() && |model| == |lc.flux|
    ensures r.Some? ==> r.value * Dof(backend, |lc.unc|, nfree) as real
                        == ChiSquare(Residuals(lc.flux, model), lc.unc)
    ensures r.Some? && r.value == 0.0 ==> forall i :: 0 <= i < |model| ==> model[i] == lc.flux[i]
  {
    var resid := Residuals(lc.flux, model);
    ChiSquareZero(resid, lc.unc);
    ReducedChiSquare(backend, ChiSquare(resid, lc.unc), |lc.unc|, nfree)
  }

  /** For the same residuals the least-squares reduced chi-square is the
      samplers' one scaled by `n / (n - k)`, hence strictly larger whenever
      there is misfit and at least one free parameter. */
  lemma ChiSquareAsymmetry(chi2: real, npoints: nat, nfree: nat, sampler: Backend)
    requires sampler != LeastSquares
    requires nfree < npoints
    ensures var lsq := ReducedChiSquare(LeastSquares, chi2, npoints, nfree);
            var smp := ReducedChiSquare(sampler, chi2, npoints, nfree);
            && lsq.Some? && smp.Some?
            && lsq.value == smp.value * (npoints as real / (npoints - nfree) as real)
            && (chi2 > 0.0 && nfree > 0 ==> lsq.value > smp.value)
  {
    var n := npoints as real;
    var d := (npoints - nfree) as real;
    var lsq := ReducedChiSquare(LeastSquares, chi2, npoints, nfree);
    var smp := ReducedChiSquare(sampler, chi2, npoints, nfree);
    assert lsq.value == chi2 / d;
    assert smp.value == chi2 / n;
    assert chi2 / d == (chi2 / n) * (n / d);
    if chi2 > 0.0 && nfree > 0 {
      assert d < n;
      assert chi2 / d > chi2 / n;
    }
  }
}
