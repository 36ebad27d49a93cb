/** The field inversion of fp.go: Kaliski's almost-Montgomery inverse. Phase 1
    runs a binary extended-gcd on (p, e) for at most 768 steps, counting the
    steps in k; a correction step and 768 - k modular doublings then turn
    the almost-inverse into the Montgomery form of 1 / e. Every limb
    operation is modelled with its 384-bit wrap-around or carry written out;
    the lemmas show that none of them ever wraps. */
module FpInverse {
  import opened ModArith
  import opened Limbs
  import opened Fp

  /** The phase-1 registers: u, v, s, r are 384-bit values, k counts the
      steps taken and z accumulates the carries shifted out of r. */
  datatype State = State(u: Limb, v: Limb, s: Limb, r: Limb, k: nat, z: nat)

  datatype Phase1Result = Phase1Result(found: bool, last: State)

  /** u = p, v = e, s = 1, r = 0. */
  function Start(e: Limb): State
  {
    State(P, e, 1, 0, 0, 0)
  }

  /** One iteration of the phase-1 loop body (after the `v == 0` test). */
  function Step(st: State): State
  {
    if st.u % 2 == 0 then
      st.(u := Div2(st.u), s := Mul2(st.s).0, k := st.k + 1)
    else if st.v % 2 == 0 then
      var (r, carry) := Mul2(st.r);
      st.(v := Div2(st.v), r := r, k := st.k + 1, z := st.z + carry)
    else if st.u > st.v then
      st.(u := Div2(LSub(st.u, st.v)), r := LAdd(st.r, st.s), s := Mul2(st.s).0, k := st.k + 1)
    else
      var (r, carry) := Mul2(st.r);
      st.(v := Div2(LSub(st.v, st.u)), s := LAdd(st.s, st.r), r := r, k := st.k + 1, z := st.z + carry)
  }

  /** The phase-1 loop from iteration `i`: stop with `found` once v is zero,
      give up after 768 iterations. */
  function Phase1(st: State, i: nat): Phase1Result
    decreases 768 - i
  {
    if i >= 768 then Phase1Result(false, st)
    else if st.v == 0 then Phase1Result(true, st)
    else Phase1(Step(st), i + 1)
  }

  /** The correction step: subtract p from r when r is not below p or a carry was lost. */
  function Corrected(st: State): Limb
  {
    if !(st.r < P) || st.z > 0 then LSub(st.r, P) else st.r
  }

  /** Phase 2: double (mod p) from iteration `i` up to 768. */
  function Phase2(u: nat, i: nat): nat
    decreases 768 - i
  {
    if i >= 768 then u else Phase2(Double(u), i + 1)
  }

  /** What `inverse` does once phase 1 has ended. */
  function Finish(p1: Phase1Result): nat
  {
    if !p1.found then 0
    else if p1.last.k < 381 || p1.last.k > 381 + 384 then 0
    else Phase2(LSub(P, Corrected(p1.last)), p1.last.k)
  }

  /** `inverse(inv, e)`. */
  function Inverse(e: Limb): nat
  {
    if e == 0 then 0 else Finish(Phase1(Start(e), 0))
  }

  // ---------------------------------------------------------------------
  // Kaliski's invariant, for a symbolic modulus m and x standing for 2^k.

  /** `d` divides both `a` and `b`. */
  predicate CommonDivisor(d: int, a: int, b: int)
  {
    Divides(d, a) && Divides(d, b)
  }

  ghost predicate KInv(m: int, e: int, u: int, v: int, s: int, r: int, x: int)
    requires m > 0
  {
    && u >= 1 && v >= 0 && s >= 1 && r >= 0 && x >= 1
    && m == u * s + v * r
    && Cong(e * s, v * x, m)
    && Cong(e * r + u * x, 0, m)
    && s <= x && r <= x
    && u * v * x <= m * e
    && (v == 0 ==> r <= 2 * m - 2)
    && (forall d :: CommonDivisor(d, u, v) ==> CommonDivisor(d, m, e))
  }

  lemma AtLeastFactor(a: int, b: int)
    requires a >= 1 && b >= 0
    ensures b <= a * b
  {
  }

  /** While v is nonzero, s + r fits below m. */
  lemma KInvSum(m: int, e: int, u: int, v: int, s: int, r: int, x: int)
    requires m > 0 && KInv(m, e, u, v, s, r, x) && v >= 1
    ensures s + r <= m && r <= m - 1
  {
    AtLeastFactor(u, s);
    AtLeastFactor(v, r);
  }

  lemma DividesDouble(d: int, h: int)
    requires Divides(d, h)
    ensures Divides(d, 2 * h)
  {
    CongScale(h, 0, 2, d);
  }

  lemma DividesSum(d: int, a: int, b: int)
    requires Divides(d, a) && Divides(d, b)
    ensures Divides(d, a + b)
  {
    CongAdd(a, 0, b, 0, d);
  }

  lemma MulTwoRight(a: int, b: int)
    ensures a * (2 * b) == 2 * (a * b)
  {
  }

  lemma MulDistrib(a: int, b: int, c: int)
    ensures a * (b + c) == a * b + a * c
    ensures (b + c) * a == b * a + c * a
  {
  }

  lemma MulSub(a: int, b: int, c: int)
    ensures (a - b) * c == a * c - b * c
    ensures c * (a - b) == c * a - c * b
  {
  }

  /** Doubling both sides: e*s = v*x gives e*(2s) = v*(2x). */
  lemma CongDoubled(e: int, s: int, v: int, x: int, m: int)
    requires m > 0 && Cong(e * s, v * x, m)
    ensures Cong(e * (2 * s), v * (2 * x), m)
  {
    MulTwoRight(e, s);
    MulTwoRight(v, x);
    CongScale(e * s, v * x, 2, m);
  }

  /** Doubling a zero class: e*r + u*x = 0 gives e*(2r) + u*(2x) = 0. */
  lemma ZeroDoubled(e: int, r: int, u: int, x: int, m: int)
    requires m > 0 && Cong(e * r + u * x, 0, m)
    ensures Cong(e * (2 * r) + u * (2 * x), 0, m)
  {
    MulTwoRight(e, r);
    MulTwoRight(u, x);
    CongScale(e * r + u * x, 0, 2, m);
  }

  /** Halving one factor and doubling another keeps a product. */
  lemma HalfDouble(h: int, a: int)
    ensures h * (2 * a) == (2 * h) * a
  {
    MulTwoRight(h, a);
    DoubleTimes(h, a);
  }

  lemma HalfDouble3(h: int, v: int, x: int)
    ensures h * v * (2 * x) == (2 * h) * v * x
    ensures v * h * (2 * x) == v * (2 * h) * x
  {
    MulTwoRight(h * v, x);
    DoubleTimes(h, v);
    DoubleTimes(h * v, x);
    MulTwoRight(v * h, x);
    MulTwoRight(v, h);
    DoubleTimes(v * h, x);
  }

  /** The r-update of the subtracting branches: from e*r + u*x = 0 and
      e*s = v*x, the class of e*(r + s) + h*(2x) with 2h = u - v is zero. */
  lemma SubtractClass(e: int, r: int, s: int, u: int, v: int, h: int, x: int, m: int)
    requires m > 0 && u - v == 2 * h
    requires Cong(e * r + u * x, 0, m) && Cong(e * s, v * x, m)
    ensures Cong(e * (r + s) + h * (2 * x), 0, m)
  {
    var q1 := CongElim(e * r + u * x, 0, m);
    var q2 := CongElim(e * s, v * x, m);
    HalfDouble(h, x);
    MulSub(u, v, x);
    MulDistrib(e, r, s);
    CongIntro(e * (r + s) + h * (2 * x), 0, m, q1 + q2);
  }

  /** The s-update of the subtracting branches: from e*r + u*x = 0 and
      e*s = v*x, e*(s + r) is h*(2x) with 2h = v - u. */
  lemma AddClass(e: int, r: int, s: int, u: int, v: int, h: int, x: int, m: int)
    requires m > 0 && v - u == 2 * h
    requires Cong(e * r + u * x, 0, m) && Cong(e * s, v * x, m)
    ensures Cong(e * (s + r), h * (2 * x), m)
  {
    var q1 := CongElim(e * r + u * x, 0, m);
    var q2 := CongElim(e * s, v * x, m);
    HalfDouble(h, x);
    MulSub(v, u, x);
    MulDistrib(e, s, r);
    CongIntro(e * (s + r), h * (2 * x), m, q1 + q2);
  }

  /** Replacing one factor by a smaller one in a product of non-negatives. */
  lemma ProductShrinks(a: int, b: int, c: int, x: int)
    requires 0 <= a <= b && c >= 0 && x >= 0
    ensures a * c * x <= b * c * x
    ensures c * a * x <= c * b * x
  {
    MulSub(b, a, c);
    MulSub(b * c, a * c, x);
    assert (b - a) * c * x >= 0;
    MulSub(b, a, c);
  }

  /** The equation m = u*s + v*r after a subtracting branch. */
  lemma SubtractEquation(m: int, u: int, v: int, s: int, r: int, h: int)
    requires m == u * s + v * r && u - v == 2 * h
    ensures m == h * (2 * s) + v * (r + s)
  {
    HalfDouble(h, s);
    MulSub(u, v, s);
    MulDistrib(v, r, s);
  }

  /** Branch `u` even, with u = 2h: u becomes h, s doubles. */
  lemma HalveU(m: int, e: int, u: int, v: int, s: int, r: int, x: int, h: int)
    requires m > 0 && KInv(m, e, u, v, s, r, x)
    requires v >= 1 && u == 2 * h
    ensures KInv(m, e, h, v, 2 * s, r, 2 * x)
  {
    HalfDouble(h, s);
    HalfDouble(h, x);
    HalfDouble3(h, v, x);
    CongDoubled(e, s, v, x, m);
    forall d | CommonDivisor(d, h, v)
      ensures CommonDivisor(d, m, e)
    {
      DividesDouble(d, h);
    }
  }

  /** Branch `v` even, with v = 2h: v becomes h, r doubles. */
  lemma HalveV(m: int, e: int, u: int, v: int, s: int, r: int, x: int, h: int)
    requires m > 0 && KInv(m, e, u, v, s, r, x)
    requires v >= 1 && v == 2 * h
    ensures KInv(m, e, u, h, s, 2 * r, 2 * x)
  {
    HalfDouble(h, r);
    HalfDouble(h, x);
    HalfDouble3(h, u, x);
    ZeroDoubled(e, r, u, x, m);
    forall d | CommonDivisor(d, u, h)
      ensures CommonDivisor(d, m, e)
    {
      DividesDouble(d, h);
    }
  }

  /** Branch u > v, with u - v = 2h: u becomes h, r becomes r + s, s doubles. */
  lemma SubtractV(m: int, e: int, u: int, v: int, s: int, r: int, x: int, h: int)
    requires m > 0 && KInv(m, e, u, v, s, r, x)
    requires v >= 1 && u - v == 2 * h && h >= 1
    ensures KInv(m, e, h, v, 2 * s, r + s, 2 * x)
  {
    SubtractEquation(m, u, v, s, r, h);
    CongDoubled(e, s, v, x, m);
    SubtractClass(e, r, s, u, v, h, x, m);
    HalfDouble3(h, v, x);
    ProductShrinks(2 * h, u, v, x);
    forall d | CommonDivisor(d, h, v)
      ensures CommonDivisor(d, m, e)
    {
      DividesDouble(d, h);
      DividesSum(d, 2 * h, v);
    }
  }

  /** Branch v >= u, with v - u = 2h: v becomes h, s becomes s + r, r doubles. */
  lemma SubtractU(m: int, e: int, u: int, v: int, s: int, r: int, x: int, h: int)
    requires m > 0 && KInv(m, e, u, v, s, r, x)
    requires v >= 1 && v - u == 2 * h && h >= 0
    ensures KInv(m, e, u, h, s + r, 2 * r, 2 * x)
  {
    KInvSum(m, e, u, v, s, r, x);
    SubtractEquation(m, v, u, r, s, h);
    ZeroDoubled(e, r, u, x, m);
    AddClass(e, r, s, u, v, h, x, m);
    HalfDouble3(h, u, x);
    ProductShrinks(2 * h, v, u, x);
    forall d | CommonDivisor(d, u, h)
      ensures CommonDivisor(d, m, e)
    {
      DividesDouble(d, h);
      DividesSum(d, 2 * h, u);
    }
  }

  // ---------------------------------------------------------------------
  // Kaliski's loop on plain integers. The loop body never looks at the
  // modulus, so the invariant and its steps are stated for any modulus m;
  // the inverse instantiates them with m = p.

  /** The phase-1 registers u, v, s, r and the step count k as plain integers. */
  datatype Regs = Regs(u: int, v: int, s: int, r: int, k: nat)

  datatype PlainResult = PlainResult(found: bool, last: Regs)

  /** The registers of a limb state, forgetting the lost carries. */
  function RegsOf(st: State): Regs
  {
    Regs(st.u, st.v, st.s, st.r, st.k)
  }

  /** Kaliski's invariant for modulus m with x = 2^k. */
  ghost predicate Inv(m: int, e: int, g: Regs)
  {
    m > 0 && KInv(m, e, g.u, g.v, g.s, g.r, Pow2(g.k))
  }

  /** The registers `inverse` starts from, u = m and v = e, satisfy the invariant. */
  lemma StartInv(m: int, e: int)
    requires m > 0 && e > 0
    ensures Inv(m, e, Regs(m, e, 1, 0, 0))
  {
    CongIntro(e * 0 + m * Pow2(0), 0, m, 1);
  }

  /** Kaliski's step with no wrap-around: the reference for `Step`. */
  function PlainStep(g: Regs): Regs
  {
    if g.u % 2 == 0 then
      g.(u := g.u / 2, s := 2 * g.s, k := g.k + 1)
    else if g.v % 2 == 0 then
      g.(v := g.v / 2, r := 2 * g.r, k := g.k + 1)
    else if g.u > g.v then
      g.(u := (g.u - g.v) / 2, s := 2 * g.s, r := g.r + g.s, k := g.k + 1)
    else
      g.(v := (g.v - g.u) / 2, s := g.s + g.r, r := 2 * g.r, k := g.k + 1)
  }

  /** The phase-1 loop on plain integers, with the same stop and cap as `Phase1`. */
  function PlainPhase1(g: Regs, i: nat): PlainResult
    decreases 768 - i
  {
    if i >= 768 then PlainResult(false, g)
    else if g.v == 0 then PlainResult(true, g)
    else PlainPhase1(PlainStep(g), i + 1)
  }

  /** Every step the plain loop takes from iteration i starts with s + r <= m. */
  predicate SumsBelow(g: Regs, i: nat, m: int)
    decreases 768 - i
  {
    i >= 768 || g.v == 0 || (g.s + g.r <= m && SumsBelow(PlainStep(g), i + 1, m))
  }

  // One step keeps the invariant, one lemma per branch of the step.

  lemma StepHalveU(m: int, e: int, g: Regs)
    requires Inv(m, e, g) && g.v >= 1 && g.u % 2 == 0
    ensures Inv(m, e, PlainStep(g))
  {
    var x := Pow2(g.k);
    assert Pow2(g.k + 1) == 2 * x;
    HalveU(m, e, g.u, g.v, g.s, g.r, x, g.u / 2);
  }

  lemma StepHalveV(m: int, e: int, g: Regs)
    requires Inv(m, e, g) && g.v >= 1 && g.u % 2 == 1 && g.v % 2 == 0
    ensures Inv(m, e, PlainStep(g))
  {
    var x := Pow2(g.k);
    assert Pow2(g.k + 1) == 2 * x;
    HalveV(m, e, g.u, g.v, g.s, g.r, x, g.v / 2);
  }

  /** The difference of two odd numbers is even. */
  lemma OddDifference(a: int, b: int)
    requires a % 2 == 1 && b % 2 == 1
    ensures a - b == 2 * ((a - b) / 2)
  {
  }

  lemma StepSubtractV(m: int, e: int, g: Regs)
    requires Inv(m, e, g) && g.v >= 1 && g.u % 2 == 1 && g.v % 2 == 1 && g.u > g.v
    ensures Inv(m, e, PlainStep(g))
  {
    var x := Pow2(g.k);
    OddDifference(g.u, g.v);
    assert Pow2(g.k + 1) == 2 * x;
    SubtractV(m, e, g.u, g.v, g.s, g.r, x, (g.u - g.v) / 2);
  }

  lemma StepSubtractU(m: int, e: int, g: Regs)
    requires Inv(m, e, g) && g.v >= 1 && g.u % 2 == 1 && g.v % 2 == 1 && g.u <= g.v
    ensures Inv(m, e, PlainStep(g))
  {
    var x := Pow2(g.k);
    OddDifference(g.v, g.u);
    assert Pow2(g.k + 1) == 2 * x;
    SubtractU(m, e, g.u, g.v, g.s, g.r, x, (g.v - g.u) / 2);
  }

  lemma ProductBelow(a: int, b: int, c: int, d: int)
    requires 0 <= a < c && 0 <= b < d
    ensures a * b < c * d
  {
    ProductShrinks(b, d, a, 1);
    ProductShrinks(a, c, d, 1);
  }

  /** For p and a 384-bit input, p * e < 2^381 * 2^384 = 2^765. */
  lemma ProductBelow765(e: Limb)
    ensures P * e < Pow2(765)
  {
    Pow2Literals();
    ProductBelow(P, e, Pow2(381), Pow2(384));
    Pow2Add(381, 384);
  }

  /** From any invariant state after i steps, the plain loop finds v = 0 by
      step n when m * e < 2^n and n is below the cap of 768, and s + r <= m
      at every step on the way: while v is nonzero each step keeps the
      invariant and 2^k <= u * v * 2^k <= m * e. */
  lemma {:induction false} Phase1Finds(m: int, e: int, g: Regs, i: nat, n: nat)
    requires Inv(m, e, g) && g.k == i && i <= n < 768 && m * e < Pow2(n)
    ensures PlainPhase1(g, i).found
    ensures PlainPhase1(g, i).last.v == 0 && PlainPhase1(g, i).last.k <= n
    ensures Inv(m, e, PlainPhase1(g, i).last)
    ensures SumsBelow(g, i, m)
    decreases 768 - i
  {
    if g.v != 0 {
      var x := Pow2(g.k);
      // 2^k <= u * v * 2^k <= m * e < 2^n, so this step is below the cap.
      assert g.k < n by {
        AtLeastFactor(g.u, g.v);
        AtLeastFactor(g.u * g.v, x);
        if g.k >= n {
          Pow2Monotone(n, g.k);
        }
      }
      KInvSum(m, e, g.u, g.v, g.s, g.r, x);
      if g.u % 2 == 0 {
        StepHalveU(m, e, g);
      } else if g.v % 2 == 0 {
        StepHalveV(m, e, g);
      } else if g.u > g.v {
        StepSubtractV(m, e, g);
      } else {
        StepSubtractU(m, e, g);
      }
      Phase1Finds(m, e, PlainStep(g), i + 1, n);
    }
  }

  /** While every step starts with s + r <= m and 2m < 2^384, the limb loop
      is the plain one: no subtraction, doubling or sum wraps and no carry
      leaves r. */
  lemma {:induction false} Phase1Agrees(st: State, i: nat, m: int)
    requires 2 * m < W && SumsBelow(RegsOf(st), i, m)
    ensures Phase1(st, i).found == PlainPhase1(RegsOf(st), i).found
    ensures RegsOf(Phase1(st, i).last) == PlainPhase1(RegsOf(st), i).last
    ensures Phase1(st, i).last.z == st.z
    decreases 768 - i
  {
    if i < 768 && st.v != 0 {
      assert Mul2(st.s).0 == 2 * st.s;
      assert Mul2(st.r) == (2 * st.r, 0);
      assert RegsOf(Step(st)) == PlainStep(RegsOf(st));
      Phase1Agrees(Step(st), i + 1, m);
    }
  }

  /** For e coprime to m the final u is 1, so s = m <= 2^k, and k exceeds
      any n with 2^n < m. */
  lemma WindowFromCoprime(m: int, e: int, g: Regs, n: nat)
    requires Inv(m, e, g) && g.v == 0 && Coprime(e, m) && Pow2(n) < m
    ensures g.u == 1 && g.s == m && g.k > n
  {
    MulModZero(1, g.u);
    MulModZero(0, g.u);
    assert CommonDivisor(g.u, g.u, g.v);
    assert Divides(g.u, e) && Divides(g.u, m);
    if g.k <= n {
      Pow2Monotone(g.k, n);
    }
  }

  /** The registers `inverse` starts phase 1 from satisfy the invariant for p,
      and phase 1 finds v = 0 by step 765 with no carry lost. */
  lemma Phase1Ends(e: Limb)
    requires e > 0
    ensures Phase1(Start(e), 0).found
    ensures Phase1(Start(e), 0).last.v == 0 && Phase1(Start(e), 0).last.k <= 381 + 384
    ensures Phase1(Start(e), 0).last.z == 0
    ensures Inv(P, e, RegsOf(Phase1(Start(e), 0).last))
  {
    ModulusSize();
    StartInv(P, e);
    ProductBelow765(e);
    Phase1Finds(P, e, RegsOf(Start(e)), 0, 765);
    Phase1Agrees(Start(e), 0, P);
  }

  /** Phase 1 on a nonzero input always ends found within the window's upper
      end, and for e coprime to p also at or above its lower end. */
  lemma Phase1Window(e: Limb)
    requires e > 0
    ensures Phase1(Start(e), 0).found
    ensures Phase1(Start(e), 0).last.k <= 381 + 384
    ensures Coprime(e, P) ==> Phase1(Start(e), 0).last.k >= 381
  {
    Phase1Ends(e);
    if Coprime(e, P) {
      Pow2Literals();
      WindowFromCoprime(P, e, RegsOf(Phase1(Start(e), 0).last), 380);
    }
  }

  /** With no carry lost and r at most 2p - 2, as the invariant gives once v
      is zero, the corrected r is below p, so p - r does not wrap. */
  lemma CorrectedBelowP(st: State)
    requires st.z == 0 && st.r <= 2 * P - 2
    ensures Corrected(st) < P
    ensures LSub(P, Corrected(st)) == P - Corrected(st)
  {
    ModulusSize();
  }

  /** The correction for an odd modulus m: with r = r0 (mod m) reduced and
      e*r0 + 2^k = 0, r is nonzero and e*(m - r) = 2^k (mod m). */
  lemma CorrectionClass(m: int, e: int, r0: int, r: int, k: nat)
    requires m > 1 && m % 2 == 1 && 0 <= r < m
    requires Cong(r, r0, m) && Cong(e * r0 + Pow2(k), 0, m)
    ensures r != 0
    ensures Cong(e * (m - r), Pow2(k), m)
  {
    var x := Pow2(k);
    CongScale(r, r0, e, m);
    CongAdd(e * r, e * r0, x, x, m);
    CongTrans(e * r + x, e * r0 + x, 0, m);
    ComplementClass(m, e, r, x);
    if r == 0 {
      assert e * r + x == x;
      OddNotDividesPow2(m, k);
      assert false;
    }
  }

  /** e*r + x = 0 (mod m) means e*(m - r) = x (mod m). */
  lemma ComplementClass(m: int, e: int, r: int, x: int)
    requires m > 0 && Cong(e * r + x, 0, m)
    ensures Cong(e * (m - r), x, m)
  {
    var q := CongElim(e * r + x, 0, m);
    MulSub(m, r, e);
    assert e * (m - r) - x == (e - q) * m;
    CongIntro(e * (m - r), x, m, e - q);
  }

  /** Once u = 1, the invariant's e*r + 2^k = 0 (mod p) makes the corrected r
      lie in (0, p) with e*(p - r) = 2^k (mod p). */
  lemma CorrectedClass(e: int, st: State)
    requires st.z == 0 && st.r <= 2 * P - 2 && Cong(e * st.r + Pow2(st.k), 0, P)
    ensures 0 < Corrected(st) < P
    ensures Cong(e * (P - Corrected(st)), Pow2(st.k), P)
  {
    ModulusSize();
    CorrectedBelowP(st);
    var r := Corrected(st);
    if st.r >= P {
      CongAddMultiple(st.r, -1, P);
    } else {
      CongIntro(r, st.r, P, 0);
    }
    CorrectionClass(P, e, st.r, r, st.k);
  }

  /** Modular doubling of a value of class y / e gives class 2y / e. */
  lemma DoubleClass(m: int, e: int, u: int, d: int, y: int)
    requires m > 0 && Cong(d, 2 * u, m) && Cong(e * u, y, m)
    ensures Cong(e * d, 2 * y, m)
  {
    CongScale(d, 2 * u, e, m);
    MulTwoRight(e, u);
    CongScale(e * u, y, 2, m);
    CongTrans(e * d, 2 * (e * u), 2 * y, m);
  }

  /** Phase 2 keeps a value in [1, p]: doubling modulo the odd p never reaches 0. */
  lemma {:induction false} Phase2Range(u: nat, i: nat)
    requires 1 <= u <= P
    ensures 1 <= Phase2(u, i) <= P
    decreases 768 - i
  {
    if i < 768 {
      ModulusSize();
      Phase2Range(Double(u), i + 1);
    }
  }

  /** Phase 2 from step i: each doubling multiplies the class by 2, up to 2^768. */
  lemma {:induction false} Phase2Class(e: int, u: nat, i: nat)
    requires u < P && i <= 768 && Cong(e * u, Pow2(i), P)
    ensures Phase2(u, i) < P && Cong(e * Phase2(u, i), Pow2(768), P)
    decreases 768 - i
  {
    if i < 768 {
      DoubleClass(P, e, u, Double(u), Pow2(i));
      assert Pow2(i + 1) == 2 * Pow2(i);
      Phase2Class(e, Double(u), i + 1);
    }
  }

  /** A reduced inv with e * inv = 2^768 = R^2 (mod p) has mul(inv, e) = R mod p. */
  lemma MontOneFromClass(e: nat, inv: nat)
    requires inv < P && Cong(e * inv, Pow2(768), P)
    ensures Mul(inv, e) == One()
  {
    ModulusFacts();
    Pow2Of384();
    Pow2Add(384, 384);
    var c := Mul(inv, e);
    assert inv * e == e * inv;
    CongTrans(c * W, inv * e, W * W, P);
    CongMod(W, P);
    CongScale(R1, W, W, P);
    assert W * R1 == R1 * W;
    CongSym(R1 * W, W * W, P);
    CongTrans(c * W, W * W, R1 * W, P);
    MontUnique(c, R1);
  }

  /** The end of `inverse` for e coprime to p, from a found phase-1 state. */
  lemma FinishCorrect(e: Limb, p1: Phase1Result)
    requires p1.found && p1.last.v == 0 && p1.last.k <= 381 + 384
    requires p1.last.z == 0 && Inv(P, e, RegsOf(p1.last)) && Coprime(e, P)
    ensures 0 < Finish(p1) < P
    ensures Mul(Finish(p1), e) == One()
  {
    var st := p1.last;
    Pow2Literals();
    WindowFromCoprime(P, e, RegsOf(st), 380);
    CorrectedClass(e, st);
    CorrectedBelowP(st);
    var u := P - Corrected(st);
    Phase2Class(e, u, st.k);
    Phase2Range(u, st.k);
    assert Finish(p1) == Phase2(u, st.k);
    MontOneFromClass(e, Finish(p1));
  }

  /** For nonzero e coprime to p, `inverse` returns a reduced nonzero value
      whose Montgomery product with e is Montgomery one. */
  lemma InverseCorrect(e: Limb)
    requires e > 0 && Coprime(e, P)
    ensures 0 < Inverse(e) < P
    ensures Mul(Inverse(e), e) == One()
  {
    Phase1Ends(e);
    FinishCorrect(e, Phase1(Start(e), 0));
  }

  /** In field terms: value(inverse(e)) * value(e) = 1 (mod p). */
  lemma InverseValue(e: Limb)
    requires e > 0 && Coprime(e, P)
    ensures (FromMont(Inverse(e)) * FromMont(e)) % P == 1
  {
    InverseCorrect(e);
    var inv := Inverse(e);
    var g := FromMont(inv);
    assert MontOf(g) == inv by {
      MontOfFromMont(inv);
      SmallMod(inv, P);
    }
    MulMont(g, e);
    FromMontOf(g * FromMont(e));
    FromMontOf(1);
    ModulusSize();
  }

  /** Once phase 1 has succeeded with a corrected r below p, the end of
      `inverse` returns 0 exactly when k is outside the window. */
  lemma FinishNonzero(p1: Phase1Result)
    requires p1.found && Corrected(p1.last) < P
    ensures Finish(p1) == 0 <==> p1.last.k < 381 || p1.last.k > 381 + 384
  {
    var c := Corrected(p1.last);
    ModulusSize();
    assert LSub(P, c) == P - c;
    Phase2Range(P - c, p1.last.k);
  }

  /** `inverse` returns 0 exactly on its three early exits: a zero input,
      phase 1 not finding v = 0, or k outside [381, 765]. */
  lemma InverseZeroCases(e: Limb)
    ensures Inverse(e) == 0 <==>
      (e == 0 || !Phase1(Start(e), 0).found
       || Phase1(Start(e), 0).last.k < 381 || Phase1(Start(e), 0).last.k > 381 + 384)
  {
    if e > 0 {
      Phase1Ends(e);
      CorrectedBelowP(Phase1(Start(e), 0).last);
      FinishNonzero(Phase1(Start(e), 0));
    }
  }
}
