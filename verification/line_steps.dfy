/** The two line-function steps of the Miller loop. Each is modelled twice:
    as the formula it implements, written with one name per intermediate
    value, and as the engine's code, which keeps its intermediates in the ten
    shared scratch registers `t[0..9]` and overwrites the point in place. The
    lemmas show that the register code computes the formula whatever the
    registers held before, so no register is read after being clobbered. */
module LineSteps {
  import opened Tower

  /** Projective doubling with the tangent line (Formula 3 of Costello, Lange
      and Naehrig, "Faster pairing computations on curves with high-degree
      twists", ePrint 2010/526, as adapted here): the coefficients and 2R. */
  function DoublingLine(ops: Ops, r: PointG2): (Line, PointG2)
  {
    var a := ops.mulByFq(ops.mul(r.x, r.y), TwoInv);   // X*Y / 2
    var b := ops.sqr(r.y);                             // Y^2
    var c := ops.sqr(r.z);                             // Z^2
    var e := ops.mulByB(ops.add(ops.dbl(c), c));       // b' * 3 Z^2
    var f := ops.add(ops.dbl(e), e);                   // 3 E
    var g := ops.mulByFq(ops.add(b, f), TwoInv);       // (B + F) / 2
    var h := ops.sub(ops.sqr(ops.add(r.y, r.z)), ops.add(c, b));  // (Y + Z)^2 - (B + C)
    var i := ops.sqr(r.x);                             // X^2
    var e2 := ops.sqr(e);
    var line := Line(ops.sub(e, b), ops.add(ops.dbl(i), i), ops.neg(h));
    var r2 := PointG2(ops.mul(ops.sub(b, f), a), ops.sub(ops.sqr(g), ops.add(ops.dbl(e2), e2)), ops.mul(b, h));
    (line, r2)
  }

  /** Mixed addition R + Q with the chord line (Algorithm 12 of ePrint 2010/526). */
  function AdditionLine(ops: Ops, r: PointG2, q: PointG2): (Line, PointG2)
  {
    var theta := ops.add(ops.neg(ops.mul(q.y, r.z)), r.y);   // Y1 - Y2 Z1
    var lambda := ops.add(ops.neg(ops.mul(q.x, r.z)), r.x);  // X1 - X2 Z1
    var c := ops.sqr(theta);
    var d := ops.sqr(lambda);
    var e := ops.mul(lambda, d);
    var f := ops.mul(r.z, c);
    var g := ops.mul(r.x, d);
    var h := ops.add(ops.sub(e, ops.dbl(g)), f);
    var j := ops.sub(ops.mul(theta, q.x), ops.mul(lambda, q.y));
    var line := Line(j, ops.neg(theta), lambda);
    var r2 := PointG2(ops.mul(lambda, h), ops.sub(ops.mul(ops.sub(g, h), theta), ops.mul(r.y, e)), ops.mul(r.z, e));
    (line, r2)
  }

  /** `doublingStep(coeff, r)` in the order the engine performs it on its
      scratch registers `t`; returns the coefficients, the new point and the
      registers as left behind. */
  method DoublingStep(ops: Ops, t0: seq<Fe2>, r0: PointG2) returns (coeff: Line, r: PointG2, t: seq<Fe2>)
    requires |t0| == 10
    ensures (coeff, r) == DoublingLine(ops, r0)
    ensures |t| == 10
  {
    t := t0;
    r := r0;
    var c0, c1, c2: Fe2;
    t := t[0 := ops.mul(r.x, r.y)];
    t := t[0 := ops.mulByFq(t[0], TwoInv)];
    t := t[1 := ops.sqr(r.y)];
    t := t[2 := ops.sqr(r.z)];
    t := t[7 := ops.dbl(t[2])];
    t := t[7 := ops.add(t[7], t[2])];
    t := t[3 := ops.mulByB(t[7])];
    t := t[4 := ops.dbl(t[3])];
    t := t[4 := ops.add(t[4], t[3])];
    t := t[5 := ops.add(t[1], t[4])];
    t := t[5 := ops.mulByFq(t[5], TwoInv)];
    t := t[6 := ops.add(r.y, r.z)];
    t := t[6 := ops.sqr(t[6])];
    t := t[7 := ops.add(t[2], t[1])];
    t := t[6 := ops.sub(t[6], t[7])];
    c0 := ops.sub(t[3], t[1]);
    t := t[7 := ops.sqr(r.x)];
    t := t[4 := ops.sub(t[1], t[4])];
    r := r.(x := ops.mul(t[4], t[0]));
    t := t[2 := ops.sqr(t[3])];
    t := t[3 := ops.dbl(t[2])];
    t := t[3 := ops.add(t[3], t[2])];
    t := t[5 := ops.sqr(t[5])];
    r := r.(y := ops.sub(t[5], t[3]));
    r := r.(z := ops.mul(t[1], t[6]));
    t := t[0 := ops.dbl(t[7])];
    c1 := ops.add(t[0], t[7]);
    c2 := ops.neg(t[6]);
    coeff := Line(c0, c1, c2);
  }

  /** `additionStep(coeff, r, q)` in the engine's register order. */
  method AdditionStep(ops: Ops, t0: seq<Fe2>, r0: PointG2, q: PointG2) returns (coeff: Line, r: PointG2, t: seq<Fe2>)
    requires |t0| == 10
    ensures (coeff, r) == AdditionLine(ops, r0, q)
    ensures |t| == 10
  {
    t := t0;
    r := r0;
    var c0, c1, c2: Fe2;
    t := t[0 := ops.mul(q.y, r.z)];
    t := t[0 := ops.neg(t[0])];
    t := t[0 := ops.add(t[0], r.y)];
    t := t[1 := ops.mul(q.x, r.z)];
    t := t[1 := ops.neg(t[1])];
    t := t[1 := ops.add(t[1], r.x)];
    t := t[2 := ops.sqr(t[0])];
    t := t[3 := ops.sqr(t[1])];
    t := t[4 := ops.mul(t[1], t[3])];
    t := t[2 := ops.mul(r.z, t[2])];
    t := t[3 := ops.mul(r.x, t[3])];
    t := t[5 := ops.dbl(t[3])];
    t := t[5 := ops.sub(t[4], t[5])];
    t := t[5 := ops.add(t[5], t[2])];
    r := r.(x := ops.mul(t[1], t[5]));
    t := t[2 := ops.sub(t[3], t[5])];
    t := t[2 := ops.mul(t[2], t[0])];
    t := t[3 := ops.mul(r.y, t[4])];
    r := r.(y := ops.sub(t[2], t[3]));
    r := r.(z := ops.mul(r.z, t[4]));
    t := t[2 := ops.mul(t[1], q.y)];
    t := t[3 := ops.mul(t[0], q.x)];
    c0 := ops.sub(t[3], t[2]);
    c1 := ops.neg(t[0]);
    c2 := t[1];
    coeff := Line(c0, c1, c2);
  }
}
