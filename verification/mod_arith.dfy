/** Integer facts shared by the prime-field model: powers, divisibility and
    congruence modulo a positive modulus. Dafny's `%` is Euclidean, which is
    the convention used throughout (all operands here are non-negative or
    the statements are about differences). */
module ModArith {

  function Pow(b: int, e: nat): int
  {
    if e == 0 then 1 else b * Pow(b, e - 1)
  }

  function Pow2(n: nat): nat
  {
    if n == 0 then 1 else 2 * Pow2(n - 1)
  }

  /** `d` is a positive divisor of `x`. */
  predicate Divides(d: int, x: int)
  {
    d > 0 && x % d == 0
  }

  /** The only positive common divisor of `a` and `b` is 1. */
  ghost predicate Coprime(a: int, b: int)
  {
    forall d :: Divides(d, a) && Divides(d, b) ==> d == 1
  }

  /** `a` and `b` are congruent modulo `m`. */
  predicate Cong(a: int, b: int, m: int)
    requires m > 0
  {
    (a - b) % m == 0
  }

  lemma MulModZero(q: int, m: int)
    requires m > 0
    ensures (q * m) % m == 0
  {
    var t, r := (q * m) / m, (q * m) % m;
    assert (q - t) * m == r;
    if q - t >= 1 {
      assert false;
    } else if q - t <= -1 {
      assert false;
    }
  }

  /** A witness `q` with `a - b == q * m` establishes the congruence. */
  lemma CongIntro(a: int, b: int, m: int, q: int)
    requires m > 0
    requires a - b == q * m
    ensures Cong(a, b, m)
  {
    MulModZero(q, m);
  }

  /** Every congruence has its quotient as a witness. */
  lemma CongElim(a: int, b: int, m: int) returns (q: int)
    requires m > 0
    requires Cong(a, b, m)
    ensures a - b == q * m
  {
    q := (a - b) / m;
  }

  lemma CongSym(a: int, b: int, m: int)
    requires m > 0
    requires Cong(a, b, m)
    ensures Cong(b, a, m)
  {
    var q := CongElim(a, b, m);
    CongIntro(b, a, m, -q);
  }

  lemma CongTrans(a: int, b: int, c: int, m: int)
    requires m > 0
    requires Cong(a, b, m) && Cong(b, c, m)
    ensures Cong(a, c, m)
  {
    var q1 := CongElim(a, b, m);
    var q2 := CongElim(b, c, m);
    CongIntro(a, c, m, q1 + q2);
  }

  lemma CongAdd(a: int, b: int, c: int, d: int, m: int)
    requires m > 0
    requires Cong(a, b, m) && Cong(c, d, m)
    ensures Cong(a + c, b + d, m)
  {
    var q1 := CongElim(a, b, m);
    var q2 := CongElim(c, d, m);
    CongIntro(a + c, b + d, m, q1 + q2);
  }

  lemma CongScale(a: int, b: int, c: int, m: int)
    requires m > 0
    requires Cong(a, b, m)
    ensures Cong(c * a, c * b, m)
  {
    var q := CongElim(a, b, m);
    assert c * a - c * b == c * (a - b);
    CongIntro(c * a, c * b, m, c * q);
  }

  lemma CongMul(a: int, b: int, c: int, d: int, m: int)
    requires m > 0
    requires Cong(a, b, m) && Cong(c, d, m)
    ensures Cong(a * c, b * d, m)
  {
    CongScale(a, b, c, m);
    CongScale(c, d, b, m);
    assert c * a == a * c && b * c == c * b && b * d == d * b;
    CongTrans(a * c, b * c, b * d, m);
  }

  /** Adding a multiple of the modulus does not change the class. */
  lemma CongAddMultiple(a: int, q: int, m: int)
    requires m > 0
    ensures Cong(a + q * m, a, m)
  {
    CongIntro(a + q * m, a, m, q);
  }

  /** A residue is congruent to what it reduces. */
  lemma CongMod(a: int, m: int)
    requires m > 0
    ensures Cong(a % m, a, m)
  {
    CongIntro(a % m, a, m, -(a / m));
  }

  /** Congruence is the same thing as equal residues. */
  lemma CongIffModEq(a: int, b: int, m: int)
    requires m > 0
    ensures Cong(a, b, m) <==> a % m == b % m
  {
    CongMod(a, m);
    CongMod(b, m);
    if Cong(a, b, m) {
      CongSym(a % m, a, m);
      CongTrans(a % m, a, b, m);
      CongTrans(a % m, b, b % m, m) by { CongSym(b % m, b, m); }
      ReducedCongEq(a % m, b % m, m);
    } else if a % m == b % m {
      CongSym(a % m, a, m);
      CongTrans(a, a % m, b, m);
      assert false;
    }
  }

  lemma SmallMod(a: int, m: int)
    requires 0 <= a < m
    ensures a % m == a
  {
  }

  /** A digit below the base survives one step of positional notation. */
  lemma DigitStep(h: int, d: int, base: int)
    requires 0 <= d < base
    ensures (h * base + d) / base == h && (h * base + d) % base == d
  {
    CongIntro(h * base + d, d, base, h);
    CongIffModEq(h * base + d, d, base);
    SmallMod(d, base);
  }

  /** Two residues in [0, m) that are congruent are equal. */
  lemma ReducedCongEq(a: int, b: int, m: int)
    requires m > 0
    requires 0 <= a < m && 0 <= b < m
    requires Cong(a, b, m)
    ensures a == b
  {
    var q := CongElim(a, b, m);
    if q >= 1 {
      assert false;
    } else if q <= -1 {
      assert false;
    }
  }

  lemma {:induction false} Pow2Add(a: nat, b: nat)
    ensures Pow2(a + b) == Pow2(a) * Pow2(b)
    decreases a
  {
    if a > 0 {
      Pow2Add(a - 1, b);
      DoubleTimes(Pow2(a - 1), Pow2(b));
    }
  }

  lemma MulAssoc(x: int, y: int, z: int)
    ensures x * (y * z) == (x * y) * z
  {
  }

  lemma DoubleTimes(x: int, y: int)
    ensures (2 * x) * y == 2 * (x * y)
  {
  }

  lemma {:induction false} Pow2Monotone(a: nat, b: nat)
    requires a <= b
    ensures Pow2(a) <= Pow2(b)
    decreases b
  {
    if a < b {
      Pow2Monotone(a, b - 1);
    }
  }

  lemma {:induction false} PowAdd(b: int, x: nat, y: nat)
    ensures Pow(b, x + y) == Pow(b, x) * Pow(b, y)
    decreases x
  {
    if x > 0 {
      PowAdd(b, x - 1, y);
      assert Pow(b, x + y) == b * Pow(b, x - 1 + y);
      MulAssoc(b, Pow(b, x - 1), Pow(b, y));
    }
  }

  /** b^e mod m with a reduction after every multiplication, as modular
      exponentiation computes it. */
  function PowMod(b: int, e: nat, m: int): int
    requires m > 0
  {
    if e == 0 then 1 % m else (b * PowMod(b, e - 1, m)) % m
  }

  /** Reducing after every step gives the reduced power. */
  lemma {:induction false} PowModIsPow(b: int, e: nat, m: int)
    requires m > 0
    ensures PowMod(b, e, m) == Pow(b, e) % m
    decreases e
  {
    if e > 0 {
      var x := Pow(b, e - 1);
      PowModIsPow(b, e - 1, m);
      CongMod(x, m);
      CongScale(x % m, x, b, m);
      CongIffModEq(b * (x % m), b * x, m);
    }
  }

  lemma OddTimesOdd(h: int, j: int)
    ensures (2 * h + 1) * (2 * j + 1) == 2 * (2 * h * j + h + j) + 1
  {
  }

  /** An odd modulus above 1 never divides a power of two. */
  lemma {:induction false} OddNotDividesPow2(m: int, k: nat)
    requires m > 1 && m % 2 == 1
    ensures !Divides(m, Pow2(k))
    decreases k
  {
    if k > 0 && Divides(m, Pow2(k)) {
      var q := Pow2(k) / m;
      assert Pow2(k) == q * m;
      var h, j := q / 2, m / 2;
      if q % 2 == 1 {
        OddTimesOdd(h, j);
        assert false;
      }
      assert q * m == 2 * (h * m);
      MulModZero(h, m);
      OddNotDividesPow2(m, k - 1);
    }
  }

  /** The Montgomery-product chain for a radix `w`: if c*w = xm*a, xm = x*w and
      y*w = a (all mod m), then c*w = (x*y*w)*w. Stated for a symbolic modulus
      so that it is proved once, away from any concrete constants. */
  lemma MontChain(m: int, w: int, c: int, xm: int, a: int, x: int, y: int)
    requires m > 0
    requires Cong(c * w, xm * a, m)
    requires Cong(xm, x * w, m)
    requires Cong(y * w, a, m)
    ensures Cong(c * w, (x * y * w) * w, m)
  {
    CongSym(y * w, a, m);
    CongMul(xm, x * w, a, y * w, m);
    ProductShuffle(x, y, w);
    CongTrans(c * w, xm * a, (x * y * w) * w, m);
  }

  lemma ProductShuffle(x: int, y: int, w: int)
    ensures (x * w) * (y * w) == (x * y * w) * w
  {
  }
}
