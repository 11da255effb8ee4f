/**
 * JavaScript numbers as the MH engine uses them for log-scores: a real, one
 * of the two infinities, or NaN.  Rounding is not modelled, so `Fin` carries
 * an exact real; the rules for infinities and NaN follow IEEE 754.
 */
module Numbers {

  datatype Num = NaN | NegInf | PosInf | Fin(r: real)

  /** `a + b` */
  function Add(a: Num, b: Num): Num
  {
    match (a, b)
    case (NaN, _) => NaN
    case (_, NaN) => NaN
    case (PosInf, NegInf) => NaN
    case (NegInf, PosInf) => NaN
    case (PosInf, _) => PosInf
    case (_, PosInf) => PosInf
    case (NegInf, _) => NegInf
    case (_, NegInf) => NegInf
    case (Fin(x), Fin(y)) => Fin(x + y)
  }

  /** `-a` */
  function Neg(a: Num): Num
  {
    match a
    case NaN => NaN
    case NegInf => PosInf
    case PosInf => NegInf
    case Fin(x) => Fin(-x)
  }

  /** `a - b` */
  function Sub(a: Num, b: Num): Num
  {
    Add(a, Neg(b))
  }

  /** `a * c` for a positive constant `c` */
  function Scale(a: Num, c: real): Num
    requires 0.0 < c
  {
    match a
    case Fin(x) => Fin(c * x)
    case _ => a
  }

  /**
   * The two transcendental functions the engine calls, on finite reals.
   * They are parameters of the model rather than definitions.
   */
  datatype Math = Math(exp: real -> real, log: real -> real)

  /** What the proofs about acceptance use of `Math.exp`. */
  ghost predicate Lawful(m: Math)
  {
    && m.exp(0.0) == 1.0
    && (forall x :: 0.0 < m.exp(x))
    && (forall x, y :: x < y ==> m.exp(x) < m.exp(y))
  }

  /** `Math.exp(a)` */
  function Exp(m: Math, a: Num): Num
  {
    match a
    case NaN => NaN
    case NegInf => Fin(0.0)
    case PosInf => PosInf
    case Fin(x) => Fin(m.exp(x))
  }

  /** `Math.log(n)` for an array length `n` */
  function Log(m: Math, n: nat): Num
  {
    if n == 0 then NegInf else Fin(m.log(n as real))
  }
}
