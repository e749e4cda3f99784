/** Values of the pipeline's double-precision arrays.

    A float64 is modelled by an exact real together with the two infinities
    that NumPy uses for missing bounds and rejected log-probabilities. NaN is
    not an `ExtReal`: where NumPy would produce NaN, an infinite quotient or a
    masked entry, the model returns `None` of `Option` instead. */
module Floats {

  /** A value that may be absent: masked by NumPy, NaN, or not computable. */
  datatype Option<+T> = None | Some(value: T)

  /** The Python exceptions the modelled code can raise. */
  datatype PyError = TypeError | ValueError | ZeroDivisionError | AttributeError | IndexError

  /** The outcome of an operation that either returns a value or raises. */
  datatype Result<+T> = Ok(value: T) | Err(error: PyError)

  /** An extended real: a float64 that is not NaN, with unbounded precision. */
  datatype ExtReal = NegInf | Fin(r: real) | PosInf

  /** The float64 comparison `x <= y` (never true against NaN, which is excluded here). */
  predicate Le(x: ExtReal, y: ExtReal)
  {
    match (x, y)
    case (NegInf, _) => true
    case (_, PosInf) => true
    case (Fin(a), Fin(b)) => a <= b
    case _ => false
  }

  /** The float64 comparison `x < y`. */
  predicate Lt(x: ExtReal, y: ExtReal)
  {
    Le(x, y) && x != y
  }

  /** `Le` is a total order on extended reals. */
  lemma LeTotal(x: ExtReal, y: ExtReal)
    ensures Le(x, y) || Le(y, x)
    ensures Le(x, y) && Le(y, x) ==> x == y
    ensures Lt(x, y) <==> !Le(y, x)
  {
  }

  lemma LeTrans(x: ExtReal, y: ExtReal, z: ExtReal)
    requires Le(x, y) && Le(y, z)
    ensures Le(x, z)
  {
  }

  /** The float64 sum `x + y`; the sum of two opposite infinities (NaN) is excluded. */
  function Plus(x: ExtReal, y: ExtReal): ExtReal
    requires !(x == NegInf && y == PosInf) && !(x == PosInf && y == NegInf)
  {
    match (x, y)
    case (NegInf, _) => NegInf
    case (_, NegInf) => NegInf
    case (PosInf, _) => PosInf
    case (_, PosInf) => PosInf
    case (Fin(a), Fin(b)) => Fin(a + b)
  }
}
