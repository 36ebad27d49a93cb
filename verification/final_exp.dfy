/** The final exponentiation, as a fixed composition of the F_p^12
    operations: the easy part (conjugation by p^6, inversion, Frobenius by
    p^2) and the hard part, which chains five exponentiations by the curve
    parameter x. As with the line steps, the engine's code keeps its values
    in nine shared scratch registers and is shown to compute the formula
    whatever they held before. */
module FinalExp {
  import opened Tower
  import opened CurveParam

  /** `exp(c, a)`: cyclotomic exponentiation by |x| followed by conjugation,
      i.e. a^x for the negative parameter x of BLS12-381. */
  function ExpByX(ops: Ops, a: Fe12): Fe12
  {
    ops.conj(ops.cycExp(a, X))
  }

  /** `exp(c, a)` on the scratch registers: the cyclotomic power is written
      into register `dst` and then conjugated there. Register `src` is read
      before `dst` is written, so the result is right even when they are the
      same register, and no other register changes. */
  method Exp(ops: Ops, t0: seq<Fe12>, dst: nat, src: nat) returns (t: seq<Fe12>)
    requires dst < |t0| && src < |t0|
    ensures |t| == |t0|
    ensures t[dst] == ExpByX(ops, t0[src])
    ensures forall k :: 0 <= k < |t| && k != dst ==> t[k] == t0[k]
  {
    t := t0[dst := ops.cycExp(t0[src], X)];
    t := t[dst := ops.conj(t[dst])];
  }

  /** The easy part of the final exponentiation: f^((p^6 - 1)(p^2 + 1)). */
  function EasyPart(ops: Ops, f: Fe12): Fe12
  {
    var m := ops.mul12(ops.frob(f, 6), ops.inv12(f));
    ops.mul12(ops.frob(m, 2), m)
  }

  /** The hard part applied to the output `g` of the easy part, written with
      one name per intermediate value. */
  function HardPart(ops: Ops, g: Fe12): Fe12
  {
    var gsq := ops.conj(ops.cycSqr(g));
    var a := ExpByX(ops, g);
    var b := ops.mul12(gsq, a);
    var c := ExpByX(ops, b);
    var d := ExpByX(ops, c);
    var h := ops.mul12(ExpByX(ops, d), ops.cycSqr(a));
    var k := ExpByX(ops, h);
    var u := ops.mul12(ops.mul12(k, ops.conj(b)), g);
    var v := ops.frob(ops.mul12(c, g), 3);
    var w := ops.frob(ops.mul12(h, ops.conj(g)), 1);
    var z := ops.frob(ops.mul12(a, d), 2);
    ops.mul12(ops.mul12(ops.mul12(z, v), w), u)
  }

  /** The final exponentiation. */
  function FinalExpValue(ops: Ops, f: Fe12): Fe12
  {
    HardPart(ops, EasyPart(ops, f))
  }

  /** `finalExp(f)` in the engine's register order on the scratch registers `t`. */
  method FinalExponentiation(ops: Ops, t0: seq<Fe12>, f0: Fe12) returns (f: Fe12, t: seq<Fe12>)
    requires |t0| == 9
    ensures f == FinalExpValue(ops, f0)
    ensures |t| == 9
  {
    t := FinalExpEasy(ops, t0, f0);
    f, t := FinalExpHard(ops, t);
  }

  /** The easy part of `finalExp`: leaves its result in `t[2]` and the
      conjugated cyclotomic square of it in `t[1]`. */
  method FinalExpEasy(ops: Ops, t0: seq<Fe12>, f: Fe12) returns (t: seq<Fe12>)
    requires |t0| == 9
    ensures |t| == 9
    ensures t[2] == EasyPart(ops, f) && t[1] == ops.conj(ops.cycSqr(t[2]))
  {
    t := t0;
    t := t[0 := ops.frob(f, 6)];
    t := t[1 := ops.inv12(f)];
    t := t[2 := ops.mul12(t[0], t[1])];
    t := t[1 := t[2]];
    t := t[2 := ops.frob(t[2], 2)];
    t := t[2 := ops.mul12(t[2], t[1])];
    t := t[1 := ops.cycSqr(t[2])];
    t := t[1 := ops.conj(t[1])];
  }

  /** The hard part of `finalExp`, starting from the registers the easy part
      left behind. */
  method FinalExpHard(ops: Ops, t0: seq<Fe12>) returns (f: Fe12, t: seq<Fe12>)
    requires |t0| == 9 && t0[1] == ops.conj(ops.cycSqr(t0[2]))
    ensures f == HardPart(ops, t0[2])
    ensures |t| == 9
  {
    t := t0;
    t := Exp(ops, t, 3, 2);
    t := t[4 := ops.cycSqr(t[3])];
    t := t[5 := ops.mul12(t[1], t[3])];
    t := Exp(ops, t, 1, 5);
    t := Exp(ops, t, 0, 1);
    t := Exp(ops, t, 6, 0);
    t := t[6 := ops.mul12(t[6], t[4])];
    t := Exp(ops, t, 4, 6);
    t := t[5 := ops.conj(t[5])];
    t := t[4 := ops.mul12(t[4], t[5])];
    t := t[4 := ops.mul12(t[4], t[2])];
    t := t[5 := ops.conj(t[2])];
    t := t[1 := ops.mul12(t[1], t[2])];
    t := t[1 := ops.frob(t[1], 3)];
    t := t[6 := ops.mul12(t[6], t[5])];
    t := t[6 := ops.frob(t[6], 1)];
    t := t[3 := ops.mul12(t[3], t[0])];
    t := t[3 := ops.frob(t[3], 2)];
    t := t[3 := ops.mul12(t[3], t[1])];
    t := t[3 := ops.mul12(t[3], t[6])];
    f := ops.mul12(t[3], t[4]);
  }
}
