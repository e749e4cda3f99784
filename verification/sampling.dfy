/** Sampler set-up in the `emcee` and `dynesty` backends: dropping initial
    walker positions that fall outside the box, and the uniform prior
    transform from the unit cube to the box. */
module Sampling {
  import opened Floats
  import opened Arrays
  import opened Objective

  /** `out_of_range = [all((pmin <= ii) & (ii <= pmax)) for ii in pos]`,
      `pos = pos[out_of_range]`, `nwalkers = sum(out_of_range)`. The source
      names the mask `out_of_range`, but it is true for the positions that are
      IN range, and those are the ones kept. */
  method FilterWalkers(pos: seq<seq<ExtReal>>, lo: seq<ExtReal>, hi: seq<ExtReal>)
    returns (inRange: seq<bool>, kept: seq<seq<ExtReal>>, nwalkers: nat)
    requires forall w :: 0 <= w < |pos| ==> Shaped(pos[w], lo, hi)
    ensures |inRange| == |pos|
    ensures forall w :: 0 <= w < |pos| ==> (inRange[w] <==> InBounds(pos[w], lo, hi))
    ensures kept == Select(pos, inRange)
    ensures nwalkers == |kept|
    ensures forall p :: p in kept ==> Shaped(p, lo, hi) && InBounds(p, lo, hi)
    ensures forall w :: 0 <= w < |pos| && InBounds(pos[w], lo, hi) ==> pos[w] in kept
  {
    inRange := [];
    kept := [];
    var w := 0;
    while w < |pos|
      invariant 0 <= w <= |pos|
      invariant |inRange| == w
      invariant forall v :: 0 <= v < w ==> (inRange[v] <==> InBounds(pos[v], lo, hi))
      invariant kept == Select(pos[..w], inRange)
    {
      var ok := InRange(pos[w], lo, hi);
      assert pos[..w + 1][..w] == pos[..w];
      assert (inRange + [ok])[..w] == inRange;
      inRange := inRange + [ok];
      if ok {
        kept := kept + [pos[w]];
      }
      w := w + 1;
    }
    assert pos[..w] == pos;
    nwalkers := |kept|;
    forall p | p in kept
      ensures Shaped(p, lo, hi) && InBounds(p, lo, hi)
    {
      SelectMembers(pos, inRange, p);
    }
    forall v | 0 <= v < |pos| && InBounds(pos[v], lo, hi)
      ensures pos[v] in kept
    {
      SelectMembers(pos, inRange, pos[v]);
    }
  }

  /** `all((pmin <= ii) & (ii <= pmax))` for one position. */
  method InRange(p: seq<ExtReal>, lo: seq<ExtReal>, hi: seq<ExtReal>) returns (ok: bool)
    requires Shaped(p, lo, hi)
    ensures ok <==> InBounds(p, lo, hi)
  {
    ok := true;
    var i := 0;
    while i < |p|
      invariant 0 <= i <= |p|
      invariant ok <==> forall k :: 0 <= k < i ==> Le(lo[k], p[k]) && Le(p[k], hi[k])
    {
      ok := ok && Le(lo[i], p[i]) && Le(p[i], hi[i]);
      i := i + 1;
    }
  }

  /** `transform_uniform(x, a, b) = a + (b - a) * x`. */
  function TransformUniform(x: real, a: real, b: real): (y: real)
    ensures x == 0.0 ==> y == a
    ensures x == 1.0 ==> y == b
    ensures a <= b && 0.0 <= x <= 1.0 ==> a <= y <= b
  {
    ScaleWithin(b - a, x);
    a + (b - a) * x
  }

  /** A non-negative width scaled by a unit fraction stays within the width. */
  lemma ScaleWithin(d: real, x: real)
    ensures d >= 0.0 && 0.0 <= x <= 1.0 ==> 0.0 <= d * x <= d
  {
    if d >= 0.0 && 0.0 <= x <= 1.0 {
      assert d * (1.0 - x) >= 0.0;
    }
  }

  /** For `a <= b` the transform is monotone. */
  lemma TransformUniformMonotone(x: real, x': real, a: real, b: real)
    requires a <= b && x <= x'
    ensures TransformUniform(x, a, b) <= TransformUniform(x', a, b)
  {
    assert (b - a) * x <= (b - a) * x' by {
      assert (b - a) * (x' - x) >= 0.0;
    }
  }

  /** The inverse of the transform on a non-degenerate interval. */
  function UnitCoordinate(y: real, a: real, b: real): real
    requires a < b
  {
    (y - a) / (b - a)
  }

  /** The transform is one-to-one on a non-degenerate interval: mapping a
      unit-cube coordinate into `[a, b]` and back recovers it, and vice versa. */
  lemma TransformUniformRoundTrip(x: real, y: real, a: real, b: real)
    requires a < b
    ensures UnitCoordinate(TransformUniform(x, a, b), a, b) == x
    ensures TransformUniform(UnitCoordinate(y, a, b), a, b) == y
  {
  }

  /** Bounds that are finite numbers. */
  predicate FiniteBounds(lo: seq<ExtReal>, hi: seq<ExtReal>)
  {
    |lo| == |hi| && forall i :: 0 <= i < |lo| ==> lo[i].Fin? && hi[i].Fin?
  }

  /** `ptform(theta)`: the uniform transform applied coordinate by coordinate
      with `(pmin[i], pmax[i])`. */
  function PriorTransform(u: seq<real>, lo: seq<ExtReal>, hi: seq<ExtReal>): (p: seq<real>)
    requires |lo| == |u| && FiniteBounds(lo, hi)
    ensures |p| == |u|
    ensures forall i :: 0 <= i < |u| && u[i] == 0.0 ==> p[i] == lo[i].r
    ensures forall i :: 0 <= i < |u| && u[i] == 1.0 ==> p[i] == hi[i].r
    ensures Ordered(lo, hi) && (forall i :: 0 <= i < |u| ==> 0.0 <= u[i] <= 1.0) ==>
              InBounds(Lift(p), lo, hi)
  {
    seq(|u|, i requires 0 <= i < |u| && |lo| == |u| && FiniteBounds(lo, hi) =>
          TransformUniform(u[i], lo[i].r, hi[i].r))
  }

  /** Finite numbers viewed as float64 values. */
  function Lift(p: seq<real>): (t: seq<ExtReal>)
    ensures |t| == |p| && forall i :: 0 <= i < |p| ==> t[i] == Fin(p[i])
  {
    seq(|p|, i requires 0 <= i < |p| => Fin(p[i]))
  }
}
