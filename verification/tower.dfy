/** The data the pairing engine works on. Tower elements keep their
    representation (an F_p^2 element is a pair of F_p elements, F_p^12 is
    two F_p^6 elements of three F_p^2 each), but every tower and group
    operation is an uninterpreted function carried in an `Ops` record: the
    engine's code only composes them, and that composition is what is
    modelled. */
module Tower {
  import opened Limbs
  import opened Fp

  datatype Fe2 = Fe2(c0: nat, c1: nat)
  datatype Fe6 = Fe6(c0: Fe2, c1: Fe2, c2: Fe2)
  datatype Fe12 = Fe12(c0: Fe6, c1: Fe6)

  /** A G1 point in Jacobian coordinates over F_p. */
  datatype PointG1 = PointG1(x: nat, y: nat, z: nat)

  /** A G2 (twist) point over F_p^2. */
  datatype PointG2 = PointG2(x: Fe2, y: Fe2, z: Fe2)

  /** One pairing input. */
  datatype Pair = Pair(g1: PointG1, g2: PointG2)

  /** A line-function coefficient triple, one entry of the precomputed table. */
  datatype Line = Line(c0: Fe2, c1: Fe2, c2: Fe2)

  const Fe2Zero: Fe2 := Fe2(0, 0)

  /** `ellCoeffs[j] = fe6{}`: the all-zero entry. */
  const ZeroLine: Line := Line(Fe2Zero, Fe2Zero, Fe2Zero)

  /** The Montgomery form of 1/2, the constant `twoInv` the doubling step scales by. */
  const TwoInv: nat := MontOf((P + 1) / 2)

  /** The tower and group operations the engine calls. */
  datatype Ops = Ops(
    // F_p^2
    add: (Fe2, Fe2) -> Fe2,
    sub: (Fe2, Fe2) -> Fe2,
    dbl: Fe2 -> Fe2,
    neg: Fe2 -> Fe2,
    mul: (Fe2, Fe2) -> Fe2,
    sqr: Fe2 -> Fe2,
    mulByB: Fe2 -> Fe2,
    mulByFq: (Fe2, nat) -> Fe2,
    // F_p^12
    one: Fe12,
    sqr12: Fe12 -> Fe12,
    mul12: (Fe12, Fe12) -> Fe12,
    mul014: (Fe12, Fe2, Fe2, Fe2) -> Fe12,
    conj: Fe12 -> Fe12,
    frob: (Fe12, nat) -> Fe12,
    inv12: Fe12 -> Fe12,
    cycSqr: Fe12 -> Fe12,
    cycExp: (Fe12, nat) -> Fe12,
    // G1 and G2
    g1IsZero: PointG1 -> bool,
    g2IsZero: PointG2 -> bool,
    g1Affine: PointG1 -> PointG1,
    g2Affine: PointG2 -> PointG2)
}
