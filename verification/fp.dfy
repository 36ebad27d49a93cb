/** The prime field F_p of BLS12-381 as fp.go handles it: an element is a
    384-bit integer holding the Montgomery form a = alpha * R mod p of the
    field value alpha. Decoding validates the range and converts into
    Montgomery form; exporting converts back out. */
module Fp {
  import opened ModArith
  import opened Limbs
  import opened Bits

  datatype Error =
    | WrongLength     // the byte input is not 48 bytes long
    | InvalidElement  // the decoded integer is not below p
    | Unparsable      // the string could not be read as an integer

  datatype Result<T> = Ok(value: T) | Err(error: Error)

  /** Montgomery form of the integer x: x * R mod p. */
  function MontOf(x: int): nat
  {
    (x * W) % P
  }

  /** `valid`: the stored integer is a reduced residue. */
  predicate Valid(a: nat)
  {
    a < P
  }

  /** `toMont`: multiply by R^2 in Montgomery arithmetic. */
  function ToMont(a: nat): (c: nat)
    ensures c == MontOf(a)
  {
    var c := Mul(a, R2);
    ModulusFacts();
    // c * R = a * R^2 = (a * R) * R  (mod p)
    CongMod(W * W, P);
    CongScale(R2, W * W, a, P);
    CongTrans(c * W, a * R2, a * (W * W), P);
    CongMod(a * W, P);
    CongScale(MontOf(a), a * W, W, P);
    assert a * (W * W) == W * (a * W);
    assert W * MontOf(a) == MontOf(a) * W;
    CongSym(MontOf(a) * W, W * (a * W), P);
    CongTrans(c * W, W * (a * W), MontOf(a) * W, P);
    MontUnique(c, MontOf(a));
    c
  }

  /** `fromMont`: multiply by 1 in Montgomery arithmetic, giving the field value. */
  function FromMont(a: nat): (c: nat)
    ensures c < P
    ensures Cong(c * W, a, P)
  {
    Mul(a, 1)
  }

  /** Montgomery form of what `fromMont` returns is the reduced input. */
  lemma MontOfFromMont(a: nat)
    ensures MontOf(FromMont(a)) == a % P
  {
    CongIffModEq(FromMont(a) * W, a, P);
  }

  /** `fromMont` undoes the Montgomery form of any integer, modulo p. */
  lemma FromMontOf(y: int)
    ensures FromMont(MontOf(y)) == y % P
  {
    var d := FromMont(MontOf(y));
    CongMod(y * W, P);
    CongTrans(d * W, MontOf(y), y * W, P);
    CongMod(y, P);
    CongScale(y % P, y, W, P);
    assert W * (y % P) == (y % P) * W && W * y == y * W;
    CongSym((y % P) * W, y * W, P);
    CongTrans(d * W, y * W, (y % P) * W, P);
    MontUnique(d, y % P);
  }

  /** Round trip: `fromMont(toMont(a)) == a` for every reduced a. */
  lemma MontRoundTrip(a: nat)
    requires Valid(a)
    ensures FromMont(ToMont(a)) == a
  {
    assert ToMont(a) == MontOf(a);
    FromMontOf(a);
    SmallMod(a, P);
  }

  /** And the other way round: `toMont(fromMont(a)) == a`. */
  lemma MontRoundTripBack(a: nat)
    requires Valid(a)
    ensures ToMont(FromMont(a)) == a
  {
    var f := FromMont(a);
    assert ToMont(f) == MontOf(f);
    MontOfFromMont(a);
    SmallMod(a, P);
  }

  /** Montgomery multiplication multiplies the represented values. */
  lemma MulMont(x: int, a: nat)
    ensures Mul(MontOf(x), a) == MontOf(x * FromMont(a))
  {
    var c := Mul(MontOf(x), a);
    var y := FromMont(a);
    CongMod(x * W, P);
    MontChain(P, W, c, MontOf(x), a, x, y);
    CongMod(x * y * W, P);
    CongScale(MontOf(x * y), x * y * W, W, P);
    assert W * MontOf(x * y) == MontOf(x * y) * W && W * (x * y * W) == (x * y * W) * W;
    CongSym(MontOf(x * y) * W, (x * y * W) * W, P);
    CongTrans(c * W, (x * y * W) * W, MontOf(x * y) * W, P);
    MontUnique(c, MontOf(x * y));
  }

  /** `zero()`: the additive identity, whose value is 0. */
  function Zero(): (c: nat)
    ensures Valid(c) && FromMont(c) == 0
  {
    FromMontOf(0);
    0
  }

  /** `one()`: Montgomery one, R mod p, whose value is 1. */
  function One(): (c: nat)
    ensures Valid(c) && c == MontOf(1)
  {
    ModulusFacts();
    R1
  }

  /** `isOne`: comparison with Montgomery one, i.e. the value is 1. */
  predicate IsOne(a: nat)
  {
    a == One()
  }

  lemma IsOneMeansValueOne(a: nat)
    requires Valid(a)
    ensures IsOne(a) <==> FromMont(a) == 1
  {
    ModulusFacts();
    FromMontOf(1);
    MontOfFromMont(a);
  }

  /** `fromBytes`: 48 big-endian bytes, validated, then put in Montgomery form. */
  function FromBytes(b: seq<uint8>): (r: Result<nat>)
    ensures |b| != 48 ==> r == Err(WrongLength)
    ensures |b| == 48 && !Valid(BytesToNat(b)) ==> r == Err(InvalidElement)
    ensures r.Ok? <==> |b| == 48 && Valid(BytesToNat(b))
    ensures r.Ok? ==> r.value == MontOf(BytesToNat(b))
  {
    if |b| != 48 then Err(WrongLength)
    else
      var n := BytesToNat(b);
      if !Valid(n) then Err(InvalidElement) else Ok(ToMont(n))
  }

  /** `fromBig`: a non-negative big integer, validated, then put in Montgomery form. */
  function FromBig(n: nat): (r: Result<nat>)
    ensures !Valid(n) ==> r == Err(InvalidElement)
    ensures Valid(n) ==> r == Ok(MontOf(n))
  {
    if !Valid(n) then Err(InvalidElement) else Ok(ToMont(n))
  }

  /** `fromString`: `setString` is the integer parser the limb type supplies;
      its failure is passed through unchanged. */
  function FromString(s: string, setString: string -> Result<nat>): (r: Result<nat>)
    ensures setString(s).Err? ==> r == setString(s)
    ensures setString(s).Ok? && !Valid(setString(s).value) ==> r == Err(InvalidElement)
    ensures r.Ok? <==> setString(s).Ok? && Valid(setString(s).value)
    ensures r.Ok? ==> r.value == MontOf(setString(s).value)
  {
    match setString(s)
    case Err(e) => Err(e)
    case Ok(n) => if !Valid(n) then Err(InvalidElement) else Ok(ToMont(n))
  }

  /** `toBytes`: the 48-byte big-endian encoding of the value. */
  function ToBytes(a: nat): (b: seq<uint8>)
    ensures |b| == 48 && BytesToNat(b) == FromMont(a)
  {
    Pow256Of48();
    Pow2Literals();
    NatRoundTrip(FromMont(a), 48);
    NatToBytes(FromMont(a), 48)
  }

  /** `toBig`: the value as an integer. */
  function ToBig(a: nat): (n: nat)
    ensures Valid(n) && MontOf(n) == a % P
  {
    MontOfFromMont(a);
    FromMont(a)
  }

  /** `toString`: the value rendered by the limb type's `String`, passed in as `render`. */
  function ToString(a: nat, render: nat -> string): (s: string)
    ensures exists n: nat :: Valid(n) && MontOf(n) == a % P && s == render(n)
  {
    MontOfFromMont(a);
    render(FromMont(a))
  }

  /** Decoding then encoding gives back every 48-byte encoding of a value below p. */
  lemma FromBytesToBytes(b: seq<uint8>)
    requires |b| == 48 && Valid(BytesToNat(b))
    ensures FromBytes(b).Ok?
    ensures ToBytes(FromBytes(b).value) == b
  {
    MontRoundTrip(BytesToNat(b));
    BytesRoundTrip(b);
  }

  /** Encoding then decoding gives back every valid element. */
  lemma ToBytesFromBytes(a: nat)
    requires Valid(a)
    ensures FromBytes(ToBytes(a)) == Ok(a)
  {
    MontRoundTripBack(a);
  }

  /** `exp`: left-to-right square-and-multiply from bit `BitLen(e)` down to
      bit 0, starting at Montgomery one. The first iteration squares one. */
  method Exp(a: nat, e: nat) returns (c: nat)
    ensures c == MontOf(PowMod(FromMont(a), e, P))
  {
    var z := One();
    var i: int := BitLen(e);
    ShiftPastLen(e, BitLen(e) + 1);
    while i >= 0
      invariant -1 <= i <= BitLen(e)
      invariant z == MontOf(Pow(FromMont(a), Shift(e, i + 1)))
    {
      z := ExpBit(a, e, i, z);
      i := i - 1;
    }
    c := z;
    PowModIsPow(FromMont(a), e, P);
    MulMontMod(1, Pow(FromMont(a), e));
  }

  /** One iteration of `exp` for bit `i`: square, then multiply by `a` if
      the bit is set, which takes the exponent from `e >> (i + 1)` to `e >> i`. */
  method ExpBit(a: nat, e: nat, i: nat, z0: nat) returns (z: nat)
    requires z0 == MontOf(Pow(FromMont(a), Shift(e, i + 1)))
    ensures z == MontOf(Pow(FromMont(a), Shift(e, i)))
  {
    var s := Shift(e, i + 1);
    ShiftSucc(e, i);
    BitIsShiftParity(e, i);
    SquareStep(a, s);
    z := Mul(z0, z0);
    if Bit(e, i) {
      MultiplyStep(a, 2 * s);
      z := Mul(z, a);
    }
  }

  /** The squaring step of `exp` doubles the exponent of the represented power. */
  lemma SquareStep(a: nat, s: nat)
    ensures var z := MontOf(Pow(FromMont(a), s));
      Mul(z, z) == MontOf(Pow(FromMont(a), 2 * s))
  {
    var alpha := FromMont(a);
    var x := Pow(alpha, s);
    MulMont(x, MontOf(x));
    FromMontOf(x);
    MulMontMod(x, x);
    PowAdd(alpha, s, s);
  }

  /** The multiplying step of `exp` adds one to the exponent of the represented power. */
  lemma MultiplyStep(a: nat, s: nat)
    ensures Mul(MontOf(Pow(FromMont(a), s)), a) == MontOf(Pow(FromMont(a), s + 1))
  {
    var alpha := FromMont(a);
    MulMont(Pow(alpha, s), a);
    PowAdd(alpha, s, 1);
  }

  /** Reducing one factor first does not change the Montgomery form of a product. */
  lemma MulMontMod(x: int, y: int)
    ensures MontOf(x * (y % P)) == MontOf(x * y)
  {
    CongMod(y, P);
    CongScale(y % P, y, x * W, P);
    assert (x * W) * (y % P) == (x * (y % P)) * W;
    assert (x * W) * y == (x * y) * W;
    CongIffModEq((x * (y % P)) * W, (x * y) * W, P);
  }

  /** Montgomery squaring squares the represented value. */
  lemma SquareValue(c: nat)
    requires Valid(c)
    ensures FromMont(Square(c)) == (FromMont(c) * FromMont(c)) % P
  {
    var g := FromMont(c);
    var gg := g * g;
    assert MontOf(g) == c by {
      MontOfFromMont(c);
      SmallMod(c, P);
    }
    assert Square(c) == MontOf(gg) by {
      MulMont(g, c);
    }
    FromMontOf(gg);
  }

  /** `sqrt`: the candidate a^((p+1)/4) and whether it squares back to the
      input, which is copied before `exp` so aliasing `c` and `a` is harmless. */
  method Sqrt(a: nat) returns (c: nat, hasRoot: bool)
    ensures c == MontOf(PowMod(FromMont(a), PPlus1Over4, P))
    ensures hasRoot <==> Square(c) == a
    ensures hasRoot ==> Valid(a) && Cong(FromMont(c) * FromMont(c), FromMont(a), P)
  {
    var u := a;
    c := Exp(a, PPlus1Over4);
    var v := Square(c);
    hasRoot := u == v;
    if hasRoot {
      SquareRootValue(c, a);
    }
  }

  lemma SquareRootValue(c: nat, a: nat)
    requires Valid(c) && Square(c) == a
    ensures Valid(a) && Cong(FromMont(c) * FromMont(c), FromMont(a), P)
  {
    var g := FromMont(c);
    SquareValue(c);
    CongMod(g * g, P);
    CongSym((g * g) % P, g * g, P);
  }
}
