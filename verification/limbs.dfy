/** The fixed-width (6 x 64-bit limb) integer type underneath the prime
    field, and the BLS12-381 constants. Only the nat-level meaning of each
    limb primitive is modelled; the 384-bit wrap-around of the in-place
    add/subtract/shift primitives is written out explicitly. */
module Limbs {
  import opened ModArith

  /** R = 2^384, the limb width and the Montgomery radix. */
  const W: nat := 0x1_000000000000000000000000000000000000000000000000000000000000000000000000000000000000000000000000

  /** The BLS12-381 base-field modulus p (381 bits, p = 3 mod 4). */
  const P: nat := 0x1a0111ea397fe69a4b1ba7b6434bacd764774b84f38512bf6730d2a0f6b0f6241eabfffeb153ffffb9feffffffffaaab

  /** R mod p: the Montgomery form of 1. */
  const R1: nat := 0x15f65ec3fa80e4935c071a97a256ec6d77ce5853705257455f48985753c758baebf4000bc40c0002760900000002fffd

  /** R^2 mod p: multiplying by it in Montgomery arithmetic converts into Montgomery form. */
  const R2: nat := 0x11988fe592cae3aa9a793e85b519952d67eb88a9939d83c08de5476c4c95b6d50a76e6a609d104f1f4df1f341c341746

  /** R^-1 mod p, used only to state Montgomery multiplication. */
  const RInv: nat := 0x14fec701e8fb0ce9ed5e64273c4f538b1797ab1458a88de9343ea97914956dc87fe11274d898fafbf4d38259380b4820

  /** (p + 1) / 4, the square-root exponent. */
  const PPlus1Over4: nat := 0x680447a8e5ff9a692c6e9ed90d2eb35d91dd2e13ce144afd9cc34a83dac3d8907aaffffac54ffffee7fbfffffffeaab

  type uint8 = x: nat | x < 256

  /** A six-limb (384-bit) value read as an integer. */
  type Limb = x: nat | x < W

  lemma Pow2Of16()
    ensures Pow2(16) == 0x1_0000
  {
    assert Pow2(8) == 256;
    Pow2Add(8, 8);
  }

  lemma Pow2Of64()
    ensures Pow2(64) == 0x1_0000_0000_0000_0000
  {
    Pow2Of16();
    Pow2Add(16, 16);
    Pow2Add(32, 32);
  }

  lemma Pow2Of128()
    ensures Pow2(128) == 0x1_0000_0000_0000_0000_0000_0000_0000_0000
  {
    Pow2Of64();
    Pow2Add(64, 64);
  }

  lemma Pow2Of384()
    ensures Pow2(384) == W
  {
    Pow2Of128();
    Pow2Add(128, 128);
    Pow2Add(256, 128);
  }

  lemma Pow2Literals()
    ensures Pow2(384) == W
    ensures Pow2(380) < P < Pow2(381)
  {
    Pow2Of384();
    assert Pow2(380) * 16 == W by { assert Pow2(4) == 16; Pow2Add(380, 4); }
    assert Pow2(381) * 8 == W by { assert Pow2(3) == 8; Pow2Add(381, 3); }
  }

  /** The size and parity of p: odd, and twice it still fits in 384 bits. */
  lemma ModulusSize()
    ensures 1 < P && P % 2 == 1 && 2 * P < W
  {
  }

  /** The facts about the constants that the field layer relies on. */
  lemma ModulusFacts()
    ensures P % 4 == 3 && P > 1
    ensures R1 == W % P
    ensures R2 == (W * W) % P
    ensures (W * RInv) % P == 1
    ensures 4 * PPlus1Over4 == P + 1
    ensures 2 * P < W
  {
  }

  /** `c` is the Montgomery product of `a` and `b`: c * R = a * b (mod p), c reduced. */
  predicate IsMontProduct(c: nat, a: nat, b: nat)
  {
    c < P && Cong(c * W, a * b, P)
  }

  /** The reduced value (a * b * R^-1) mod p is a Montgomery product. */
  lemma MontProductExists(a: nat, b: nat)
    ensures IsMontProduct((a * b * RInv) % P, a, b)
  {
    var c := (a * b * RInv) % P;
    ModulusFacts();
    CongMod(a * b * RInv, P);
    CongScale(c, a * b * RInv, W, P);
    assert W * (a * b * RInv) == (a * b) * (W * RInv);
    CongMod(W * RInv, P);
    CongScale(W * RInv, 1, a * b, P);
    assert W * c == c * W;
    CongTrans(c * W, (a * b) * (W * RInv), a * b, P);
  }

  /** There is only one Montgomery product of `a` and `b`. */
  lemma MontProductUnique(a: nat, b: nat)
    ensures forall c: nat, d: nat :: IsMontProduct(c, a, b) && IsMontProduct(d, a, b) ==> c == d
  {
    forall c: nat, d: nat | IsMontProduct(c, a, b) && IsMontProduct(d, a, b)
      ensures c == d
    {
      CongSym(d * W, a * b, P);
      CongTrans(c * W, a * b, d * W, P);
      MontUnique(c, d);
    }
  }

  /** Montgomery multiplication `mul(c, a, b)`: the unique reduced `c` with
      c * R = a * b (mod p). */
  function Mul(a: nat, b: nat): (c: nat)
    ensures c < P
    ensures Cong(c * W, a * b, P)
  {
    MontProductExists(a, b);
    MontProductUnique(a, b);
    var c: nat :| IsMontProduct(c, a, b);
    c
  }

  /** Montgomery squaring `square(c, a)`. */
  function Square(a: nat): (c: nat)
    ensures c < P
    ensures Cong(c * W, a * a, P)
  {
    Mul(a, a)
  }

  /** A reduced value is determined by its class times R. */
  lemma MontUnique(c: nat, d: nat)
    requires c < P && d < P
    requires Cong(c * W, d * W, P)
    ensures c == d
  {
    ModulusFacts();
    CongScale(c * W, d * W, RInv, P);
    assert RInv * (c * W) == c * (W * RInv);
    assert RInv * (d * W) == d * (W * RInv);
    CongMod(W * RInv, P);
    CongScale(W * RInv, 1, c, P);
    CongScale(W * RInv, 1, d, P);
    CongSym(c * (W * RInv), c, P);
    CongTrans(c, c * (W * RInv), d * (W * RInv), P);
    CongTrans(c, d * (W * RInv), d, P);
    ReducedCongEq(c, d, P);
  }

  /** Modular doubling `double(c, a)` on a reduced operand. */
  function Double(a: nat): (c: nat)
    ensures a < P ==> c < P && Cong(c, 2 * a, P)
    ensures a <= P ==> c <= P
  {
    if 2 * a >= P then
      CongAddMultiple(2 * a, -1, P);
      2 * a - P
    else
      CongIntro(2 * a, 2 * a, P, 0);
      2 * a
  }

  /** `div2(0)`: shift right by one with a zero carry-in. */
  function Div2(x: nat): nat
  {
    x / 2
  }

  /** `mul2()`: in-place shift left by one; the wrapped value and the carry out. */
  function Mul2(x: nat): (r: (nat, nat))
    requires x < W
    ensures r.0 < W && r.1 <= 1
    ensures r.0 + r.1 * W == 2 * x
  {
    ((2 * x) % W, (2 * x) / W)
  }

  /** `laddAssign`: 384-bit addition, carry out dropped. */
  function LAdd(x: nat, y: nat): (r: nat)
    ensures r < W
    ensures x + y < W ==> r == x + y
  {
    (x + y) % W
  }

  /** `lsubAssign`: 384-bit subtraction, borrow out dropped. */
  function LSub(x: nat, y: nat): (r: nat)
    ensures r < W
    ensures y <= x < W + y ==> r == x - y
  {
    (x - y) % W
  }

  /** `FromBytes`: big-endian bytes to an integer. */
  function BytesToNat(b: seq<uint8>): nat
  {
    if |b| == 0 then 0 else BytesToNat(b[..|b| - 1]) * 256 + b[|b| - 1]
  }

  /** `Bytes`: the `len`-byte big-endian encoding of `n` modulo 256^len. */
  function NatToBytes(n: nat, len: nat): (b: seq<uint8>)
    ensures |b| == len
  {
    if len == 0 then [] else NatToBytes(n / 256, len - 1) + [n % 256]
  }

  function Pow256(len: nat): nat
  {
    if len == 0 then 1 else 256 * Pow256(len - 1)
  }

  /** 48 bytes hold exactly the 384-bit range. */
  lemma Pow256Of48()
    ensures Pow256(48) == W
  {
    Pow256IsPow2(48);
    Pow2Literals();
  }

  lemma {:induction false} Pow256IsPow2(len: nat)
    ensures Pow256(len) == Pow2(8 * len)
    decreases len
  {
    if len > 0 {
      Pow256IsPow2(len - 1);
      assert Pow2(8) == 256;
      Pow2Add(8, 8 * (len - 1));
    }
  }

  lemma {:induction false} BytesToNatBound(b: seq<uint8>)
    ensures BytesToNat(b) < Pow256(|b|)
    decreases |b|
  {
    if |b| > 0 {
      BytesToNatBound(b[..|b| - 1]);
      var h := BytesToNat(b[..|b| - 1]);
      assert h + 1 <= Pow256(|b| - 1);
      assert (h + 1) * 256 <= Pow256(|b| - 1) * 256;
    }
  }

  /** Encoding what was decoded gives the bytes back. */
  lemma {:induction false} BytesRoundTrip(b: seq<uint8>)
    ensures NatToBytes(BytesToNat(b), |b|) == b
    decreases |b|
  {
    if |b| > 0 {
      var h := BytesToNat(b[..|b| - 1]);
      var n := h * 256 + b[|b| - 1];
      DigitStep(h, b[|b| - 1], 256);
      BytesRoundTrip(b[..|b| - 1]);
      assert b == b[..|b| - 1] + [b[|b| - 1]];
    }
  }

  /** Decoding what was encoded gives the number back when it fits. */
  lemma {:induction false} NatRoundTrip(n: nat, len: nat)
    requires n < Pow256(len)
    ensures BytesToNat(NatToBytes(n, len)) == n
    decreases len
  {
    if len > 0 {
      assert n / 256 < Pow256(len - 1);
      NatRoundTrip(n / 256, len - 1);
      var b := NatToBytes(n, len);
      assert b[..|b| - 1] == NatToBytes(n / 256, len - 1);
    }
  }
}
