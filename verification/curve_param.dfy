/** The BLS12-381 curve parameter that drives the Miller loop and the
    final exponentiation. The parameter is negative; the engine's `x` holds
    its absolute value, the positive 0xd201000000010000, whose set bits are
    63, 62, 60, 57, 48 and 16, so `BitLen` and `Bit` read plain binary
    digits. The sign is applied by conjugation at the end of the Miller loop
    and in `exp`. `x` is defined outside the engine; these are the facts
    about it that the engine's fixed-size table depends on.

    The facts are read off x one block of bits at a time: x is `XLow`
    shifted up by 16 zero bits, `XLow` is `XMid` shifted up by 32 bits
    holding 1, and `XMid` is the top byte `XTop` shifted up by 8 bits
    holding 1. */
module CurveParam {
  import opened ModArith
  import opened Limbs
  import opened Bits

  const X: nat := 0xd201000000010000

  /** x >> 16. */
  const XLow: nat := 0xd201_0000_0001
  /** x >> 48. */
  const XMid: nat := 0xd201
  /** x >> 56, the top byte 0b1101_0010. */
  const XTop: nat := 0xd2

  lemma LowSplit()
    ensures X == Pow2(16) * XLow + 0 && 0 < Pow2(16)
  {
    Pow2Of16();
  }

  lemma MidSplit()
    ensures XLow == Pow2(32) * XMid + 1 && 1 < Pow2(32)
  {
    Pow2Of16();
    Pow2Add(16, 16);
  }

  lemma TopSplit()
    ensures XMid == Pow2(8) * XTop + 1 && 1 < Pow2(8)
  {
    assert Pow2(8) == 0x100;
  }

  /** The top byte has 8 bits, bit 6 set, and four set bits. */
  lemma TopByte()
    ensures BitLen(XTop) == 8 && Bit(XTop, 6) && PopCount(XTop) == 4
  {
    var h := XTop;
    assert h / 2 == 0x69 && h % 2 == 0;
    assert BitLen(0x69) == 7 && Bit(0x69, 5) && PopCount(0x69) == 4;
  }

  lemma XBitLen()
    ensures BitLen(X) == 64
  {
    XBitLenLayers();
    TopByte();
  }

  lemma XBitLenLayers()
    ensures BitLen(X) == 56 + BitLen(XTop)
  {
    LowBitLen();
    MidBitLen();
    TopBitLen();
  }

  lemma LowBitLen()
    ensures BitLen(X) == 16 + BitLen(XLow)
  {
    LowSplit();
    Appended(X, XLow, 0, 16, 0);
  }

  lemma MidBitLen()
    ensures BitLen(XLow) == 32 + BitLen(XMid)
  {
    MidSplit();
    Appended(XLow, XMid, 1, 32, 0);
  }

  lemma TopBitLen()
    ensures BitLen(XMid) == 8 + BitLen(XTop)
  {
    TopSplit();
    Appended(XMid, XTop, 1, 8, 0);
  }

  /** Bit 62, the one just below the top bit, is set. */
  lemma XSecondBit()
    ensures Bit(X, 62)
  {
    TopByte();
    LowSplit();
    MidSplit();
    TopSplit();
    Appended(XMid, XTop, 1, 8, 6);
    Appended(XLow, XMid, 1, 32, 14);
    Appended(X, XLow, 0, 16, 46);
  }

  lemma XPopCount()
    ensures PopCount(X) == 6
  {
    XPopCountLayers();
    TopByte();
  }

  lemma XPopCountLayers()
    ensures PopCount(X) == 2 + PopCount(XTop)
  {
    LowPopCount();
    MidPopCount();
    TopPopCount();
  }

  lemma LowPopCount()
    ensures PopCount(X) == PopCount(XLow)
  {
    LowSplit();
    Appended(X, XLow, 0, 16, 0);
    assert PopCount(0) == 0;
  }

  lemma MidPopCount()
    ensures PopCount(XLow) == 1 + PopCount(XMid)
  {
    MidSplit();
    Appended(XLow, XMid, 1, 32, 0);
    assert PopCount(1) == 1;
  }

  lemma TopPopCount()
    ensures PopCount(XMid) == 1 + PopCount(XTop)
  {
    TopSplit();
    Appended(XMid, XTop, 1, 8, 0);
    assert PopCount(1) == 1;
  }
}
