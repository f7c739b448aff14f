/** The CRC-32 digest (section 8 of RFC 1952): its table-driven form refines the bit-by-bit form, and
    every burst of up to four bytes is detected. */
module Crc32 {
  import opened Bytes

  /** A 32-bit register. The wrapper keeps its bits out of every proof that does not look at them. */
  datatype Reg = Reg(bits: bv32)

  function Xor(x: Reg, y: Reg): Reg {
    Reg(x.bits ^ y.bits)
  }

  predicate Odd(c: Reg) {
    c.bits & 1 == 1
  }

  function Half(c: Reg): Reg {
    Reg(c.bits >> 1)
  }

  /** Down by one byte, and the low byte and the rest of a register. */
  function Down(c: Reg): Reg {
    Reg(c.bits >> 8)
  }

  function Low(c: Reg): Reg {
    Reg(c.bits & 0xFF)
  }

  function High(c: Reg): Reg {
    Reg(c.bits & 0xFFFF_FF00)
  }

  const ZERO := Reg(0)
  const ONES := Reg(0xFFFF_FFFF)
  const POLYNOMIAL := Reg(0xEDB8_8320)

  /** One shift of the reflected division by the generator polynomial. */
  function ShiftBit(c: Reg): Reg {
    if Odd(c) then Xor(POLYNOMIAL, Half(c)) else Half(c)
  }

  function Shift(c: Reg, n: nat): Reg
    decreases n
  {
    if n == 0 then c else Shift(ShiftBit(c), n - 1)
  }

  // Bytes as registers.

  /** Appends a binary digit. */
  function Digit(high: Reg, one: bool): Reg {
    Reg((high.bits << 1) ^ (if one then 1 else 0))
  }

  /** The n lowest binary digits of v. */
  function ToBits(v: nat, n: nat): Reg
    decreases n
  {
    if n == 0 then ZERO else Digit(ToBits(v / 2, n - 1), v % 2 == 1)
  }

  /** The number that the n lowest bits stand for. */
  function FromBits(x: Reg, n: nat): (v: nat)
    ensures v < Pow2(n)
    decreases n
  {
    if n == 0 then 0 else FromBits(Half(x), n - 1) * 2 + (if Odd(x) then 1 else 0)
  }

  function Pow2(n: nat): nat {
    if n == 0 then 1 else 2 * Pow2(n - 1)
  }

  lemma Pow2Eight()
    ensures Pow2(8) == 256
  {
    assert Pow2(4) == 16;
  }

  function Bits(b: Byte): Reg {
    ToBits(b, 8)
  }

  function LowByte(c: Reg): Byte {
    Pow2Eight();
    FromBits(c, 8)
  }

  /** The bit-by-bit CRC register after a stream of bytes. */
  function Register(c: Reg, data: seq<Byte>): Reg
    decreases |data|
  {
    if data == [] then c else Register(Shift(Xor(c, Bits(data[0])), 8), data[1..])
  }

  function Crc(data: seq<Byte>): Reg {
    Xor(Register(ONES, data), ONES)
  }

  // Facts about single registers, decided bit by bit.

  lemma XorAssoc(x: Reg, y: Reg, z: Reg)
    ensures Xor(Xor(x, y), z) == Xor(x, Xor(y, z))
  {
  }

  lemma XorComm(x: Reg, y: Reg)
    ensures Xor(x, y) == Xor(y, x)
  {
  }

  lemma XorSelf(x: Reg)
    ensures Xor(x, x) == ZERO && Xor(x, ZERO) == x
  {
  }

  lemma HalfXor(c: Reg, d: Reg)
    ensures Half(Xor(c, d)) == Xor(Half(c), Half(d))
  {
  }

  lemma OddXor(c: Reg, d: Reg)
    ensures Odd(Xor(c, d)) <==> Odd(c) != Odd(d)
  {
    OddXorBits(c.bits, d.bits);
  }

  lemma OddXorBits(c: bv32, d: bv32)
    ensures (c ^ d) & 1 == 1 <==> ((c & 1 == 1) != (d & 1 == 1))
  {
  }

  lemma ShiftBitInjective(c: Reg, d: Reg)
    requires ShiftBit(c) == ShiftBit(d)
    ensures c == d
  {
  }

  function EightBits(c: Reg): Reg {
    ShiftBit(ShiftBit(ShiftBit(ShiftBit(ShiftBit(ShiftBit(ShiftBit(ShiftBit(c))))))))
  }

  lemma EightHalves(c: Reg)
    requires Low(c) == ZERO
    ensures EightBits(c) == Down(c)
  {
  }

  lemma SplitXor(x: Reg)
    ensures x == Xor(Low(x), High(x))
  {
  }

  lemma LowHigh(x: Reg)
    ensures Low(High(x)) == ZERO
  {
  }

  lemma DownHigh(x: Reg)
    ensures Down(High(x)) == Down(x)
  {
  }

  lemma ByteBelow(c: Reg, b: Reg)
    requires Low(b) == b
    ensures Down(Xor(c, b)) == Down(c)
  {
  }

  // Xor, structurally.

  lemma XorCancel(x: Reg, y: Reg, z: Reg)
    requires Xor(x, z) == Xor(y, z)
    ensures x == y
  {
    hide Xor;
    XorAssoc(x, z, z);
    XorAssoc(y, z, z);
    XorSelf(z);
    XorSelf(x);
    XorSelf(y);
  }

  lemma XorTwice(p: Reg, x: Reg, y: Reg)
    ensures Xor(Xor(p, x), Xor(p, y)) == Xor(x, y)
  {
    hide Xor;
    XorComm(p, x);
    XorAssoc(x, p, Xor(p, y));
    XorAssoc(p, p, y);
    XorSelf(p);
    XorComm(ZERO, y);
    XorSelf(y);
  }

  lemma XorFour(c: Reg, x: Reg, y: Reg, z: Reg, t: Reg)
    ensures Xor(Xor(Xor(Xor(c, x), y), z), t) == Xor(c, Xor(Xor(Xor(x, y), z), t))
  {
    hide Xor;
    XorAssoc(c, x, y);
    XorAssoc(c, Xor(x, y), z);
    XorAssoc(c, Xor(Xor(x, y), z), t);
  }

  // The division step is linear and injective.

  lemma ShiftBitXor(c: Reg, d: Reg)
    ensures ShiftBit(Xor(c, d)) == Xor(ShiftBit(c), ShiftBit(d))
  {
    hide Xor, Odd, Half;
    HalfXor(c, d);
    OddXor(c, d);
    var p, x, y := POLYNOMIAL, Half(c), Half(d);
    XorTwice(p, x, y);
    XorAssoc(p, x, y);
    XorComm(x, Xor(p, y));
    XorAssoc(p, y, x);
    XorComm(y, x);
  }

  lemma {:induction false} ShiftXor(c: Reg, d: Reg, n: nat)
    ensures Shift(Xor(c, d), n) == Xor(Shift(c, n), Shift(d, n))
    decreases n
  {
    hide ShiftBit, Xor;
    if n > 0 {
      ShiftBitXor(c, d);
      ShiftXor(ShiftBit(c), ShiftBit(d), n - 1);
    }
  }

  /** n shifts lose nothing of the register. */
  lemma {:induction false} ShiftInjective(c: Reg, d: Reg, n: nat)
    requires Shift(c, n) == Shift(d, n)
    ensures c == d
    decreases n
  {
    hide ShiftBit;
    if n > 0 {
      ShiftInjective(ShiftBit(c), ShiftBit(d), n - 1);
      ShiftBitInjective(c, d);
    }
  }

  lemma {:induction false} ShiftAdd(c: Reg, m: nat, n: nat)
    ensures Shift(Shift(c, m), n) == Shift(c, m + n)
    decreases m
  {
    hide ShiftBit;
    if m > 0 {
      ShiftAdd(ShiftBit(c), m - 1, n);
    }
  }

  lemma ShiftNone(c: Reg)
    ensures Shift(c, 0) == c
  {
  }

  lemma EightSteps(c: Reg)
    ensures Shift(c, 8) == EightBits(c)
  {
    hide ShiftBit;
    var c2 := ShiftBit(ShiftBit(c));
    var c4 := ShiftBit(ShiftBit(c2));
    var c6 := ShiftBit(ShiftBit(c4));
    assert Shift(c, 8) == Shift(c2, 6);
    assert Shift(c2, 6) == Shift(c4, 4);
    assert Shift(c4, 4) == Shift(c6, 2);
  }

  /** Eight shifts of a register whose low byte is zero only move it down. */
  lemma ShiftZeroByte(c: Reg)
    requires Low(c) == ZERO
    ensures Shift(c, 8) == Down(c)
  {
    hide EightBits, Low, Down, Shift;
    EightSteps(c);
    EightHalves(c);
  }

  // Bytes and bits.

  /** The register of n ones. */
  function Mask(n: nat): Reg {
    if n == 0 then ZERO else if n == 1 then Reg(0x01) else if n == 2 then Reg(0x03) else if n == 3 then Reg(0x07)
    else if n == 4 then Reg(0x0F) else if n == 5 then Reg(0x1F) else if n == 6 then Reg(0x3F)
    else if n == 7 then Reg(0x7F) else Reg(0xFF)
  }

  function And(x: Reg, y: Reg): Reg {
    Reg(x.bits & y.bits)
  }

  predicate SevenBits(m: Reg) {
    m.bits & 0xFFFF_FF80 == 0
  }

  /** A mask of one more bit. */
  function Longer(m: Reg): Reg {
    Reg((m.bits << 1) | 1)
  }

  lemma MaskNone()
    ensures Mask(0) == ZERO
  {
  }

  lemma MaskStep(n: nat)
    requires 1 <= n <= 8
    ensures Mask(n) == Longer(Mask(n - 1)) && SevenBits(Mask(n - 1))
  {
  }

  lemma DigitMasked(h: Reg, m: Reg, one: bool)
    requires And(h, m) == h && SevenBits(m)
    ensures And(Digit(h, one), Longer(m)) == Digit(h, one)
    ensures Half(Digit(h, one)) == h && (Odd(Digit(h, one)) <==> one)
  {
  }

  lemma DigitOfHalf(x: Reg, m: Reg)
    requires SevenBits(m)
    ensures Digit(And(Half(x), m), Odd(x)) == And(x, Longer(m))
  {
  }

  lemma AndZero(x: Reg)
    ensures And(x, ZERO) == ZERO && And(ZERO, x) == ZERO
  {
  }

  lemma {:induction false} ToBitsMasked(v: nat, n: nat)
    requires n <= 8
    ensures And(ToBits(v, n), Mask(n)) == ToBits(v, n)
    decreases n
  {
    hide Mask, Longer, Digit, And, Half, Odd, SevenBits;
    if n == 0 {
      MaskNone();
      AndZero(ZERO);
    } else {
      MaskStep(n);
      ToBitsMasked(v / 2, n - 1);
      DigitMasked(ToBits(v / 2, n - 1), Mask(n - 1), v % 2 == 1);
    }
  }

  lemma {:induction false} FromToBits(v: nat, n: nat)
    requires n <= 8 && v < Pow2(n)
    ensures FromBits(ToBits(v, n), n) == v
    decreases n
  {
    hide Mask, Longer, Digit, And, Half, Odd, SevenBits;
    if n > 0 {
      MaskStep(n);
      ToBitsMasked(v / 2, n - 1);
      DigitMasked(ToBits(v / 2, n - 1), Mask(n - 1), v % 2 == 1);
      FromToBits(v / 2, n - 1);
    }
  }

  lemma ToFromStep(v: nat, one: bool, n: nat)
    requires n > 0
    ensures ToBits(v * 2 + (if one then 1 else 0), n) == Digit(ToBits(v, n - 1), one)
  {
    hide Digit;
  }

  lemma {:induction false} ToFromBits(x: Reg, n: nat)
    requires n <= 8
    ensures ToBits(FromBits(x, n), n) == And(x, Mask(n))
    decreases n
  {
    hide Mask, Longer, Digit, And, Half, Odd, SevenBits;
    if n == 0 {
      MaskNone();
      AndZero(x);
    } else {
      MaskStep(n);
      ToFromBits(Half(x), n - 1);
      DigitOfHalf(x, Mask(n - 1));
      ToFromStep(FromBits(Half(x), n - 1), Odd(x), n);
    }
  }

  lemma MaskEight(x: Reg)
    ensures And(x, Mask(8)) == Low(x)
  {
  }

  /** A byte's register has nothing above the low byte, and the byte can be told from it. */
  lemma BitsOfByte(b: Byte)
    ensures Low(Bits(b)) == Bits(b) && LowByte(Bits(b)) == b
  {
    Pow2Eight();
    MaskEight(Bits(b));
    hide ToBits, FromBits, Mask, And, Low;
    ToBitsMasked(b, 8);
    FromToBits(b, 8);
  }

  lemma BitsInjective(a: Byte, b: Byte)
    requires Bits(a) == Bits(b)
    ensures a == b
  {
    hide Bits, LowByte, Low;
    BitsOfByte(a);
    BitsOfByte(b);
  }

  lemma BitsOfLowByte(x: Reg)
    ensures Bits(LowByte(x)) == Low(x)
  {
    MaskEight(x);
    hide ToBits, FromBits, Mask, And, Low;
    ToFromBits(x, 8);
  }

  // The table refines the bit loop.

  lemma ShiftByEntry(x: Reg)
    ensures Shift(x, 8) == Xor(Shift(Bits(LowByte(x)), 8), Down(x))
  {
    hide Shift, Xor, Low, High, Down, Bits, LowByte;
    SplitXor(x);
    LowHigh(x);
    DownHigh(x);
    ShiftZeroByte(High(x));
    BitsOfLowByte(x);
    ShiftXor(Low(x), High(x), 8);
  }

  /** One table step is eight bit steps. */
  lemma TableStep(c: Reg, b: Byte)
    ensures Shift(Xor(c, Bits(b)), 8) == Xor(Shift(Bits(LowByte(Xor(c, Bits(b)))), 8), Down(c))
  {
    hide Shift, Xor, LowByte, Down, Bits, Low;
    BitsOfByte(b);
    ByteBelow(c, Bits(b));
    ShiftByEntry(Xor(c, Bits(b)));
  }

  /** However a stream is cut into buffers, the register is carried over. */
  lemma {:induction false} RegisterSplit(c: Reg, a: seq<Byte>, b: seq<Byte>)
    ensures Register(c, a + b) == Register(Register(c, a), b)
    decreases |a|
  {
    hide Shift, Bits, Xor;
    if a == [] {
      assert a + b == b;
    } else {
      assert (a + b)[1..] == a[1..] + b;
      RegisterSplit(Shift(Xor(c, Bits(a[0])), 8), a[1..], b);
    }
  }

  lemma RegisterSnoc(c: Reg, data: seq<Byte>, b: Byte)
    ensures Register(c, data + [b]) == Shift(Xor(Register(c, data), Bits(b)), 8)
  {
    hide Shift, Xor, Bits;
    RegisterSplit(c, data, [b]);
  }

  // Burst errors.

  /** A byte moved up by k bytes. */
  function Up(b: Reg, k: nat): Reg
    requires k < 4
  {
    if k == 0 then b else if k == 1 then Reg(b.bits << 8)
    else if k == 2 then Reg(b.bits << 16) else Reg(b.bits << 24)
  }

  lemma DownUp(b: Reg, k: nat)
    requires 1 <= k < 4 && Low(b) == b
    ensures Low(Up(b, k)) == ZERO && Down(Up(b, k)) == Up(b, k - 1)
  {
  }

  lemma UpNone(b: Reg)
    ensures Up(b, 0) == b
  {
  }

  /** Eight shifts for each byte of height bring a byte back to the bottom. */
  lemma ShiftPlace(b: Reg, k: nat)
    requires 1 <= k < 4 && Low(b) == b
    ensures Shift(Up(b, k), 8 * k) == b
    decreases k
  {
    hide Up, Shift, Low, Down;
    DownUp(b, k);
    ShiftZeroByte(Up(b, k));
    ShiftAdd(Up(b, k), 8, 8 * (k - 1));
    if k > 1 {
      ShiftPlace(b, k - 1);
    } else {
      UpNone(b);
      ShiftNone(b);
    }
  }

  /** A byte entering after 8k shifts might as well have stood k bytes up from the start. */
  lemma Absorb(c: Reg, b: Byte, k: nat)
    requires 1 <= k < 4
    ensures Xor(Shift(c, 8 * k), Bits(b)) == Shift(Xor(c, Up(Bits(b), k)), 8 * k)
  {
    hide Up, Bits, Xor, Shift, Low, LowByte;
    BitsOfByte(b);
    ShiftPlace(Bits(b), k);
    ShiftXor(c, Up(Bits(b), k), 8 * k);
  }

  /** Four bytes as they stand in the register. */
  function Word(w: seq<Byte>): Reg
    requires |w| == 4
  {
    Xor(Xor(Xor(Bits(w[0]), Up(Bits(w[1]), 1)), Up(Bits(w[2]), 2)), Up(Bits(w[3]), 3))
  }

  lemma RegisterFour(c: Reg, w: seq<Byte>)
    requires |w| == 4
    ensures Register(c, w) ==
      Shift(Xor(Shift(Xor(Shift(Xor(Shift(Xor(c, Bits(w[0])), 8), Bits(w[1])), 8), Bits(w[2])), 8), Bits(w[3])), 8)
  {
    hide Shift, Bits, Xor;
    var c1 := Shift(Xor(c, Bits(w[0])), 8);
    var c2 := Shift(Xor(c1, Bits(w[1])), 8);
    var c3 := Shift(Xor(c2, Bits(w[2])), 8);
    assert Register(c, w) == Register(c1, w[1..]);
    assert Register(c1, w[1..]) == Register(c2, w[2..]) by { assert w[1..][1..] == w[2..]; }
    assert Register(c2, w[2..]) == Register(c3, w[3..]) by { assert w[2..][1..] == w[3..]; }
    assert Register(c3, w[3..]) == Shift(Xor(c3, Bits(w[3])), 8) by { assert w[3..][1..] == []; }
  }

  /** Feeding four bytes is thirty-two shifts of the register with the word mixed in. */
  lemma FourBytes(c: Reg, w: seq<Byte>)
    requires |w| == 4
    ensures Register(c, w) == Shift(Xor(c, Word(w)), 32)
  {
    hide Shift, Bits, Xor, Up, Register;
    RegisterFour(c, w);
    var x1 := Xor(c, Bits(w[0]));
    var x2 := Xor(x1, Up(Bits(w[1]), 1));
    var x3 := Xor(x2, Up(Bits(w[2]), 2));
    Absorb(x1, w[1], 1);
    ShiftAdd(x2, 8, 8);
    Absorb(x2, w[2], 2);
    ShiftAdd(x3, 16, 8);
    Absorb(x3, w[3], 3);
    ShiftAdd(Xor(x3, Up(Bits(w[3]), 3)), 24, 8);
    XorFour(c, Bits(w[0]), Up(Bits(w[1]), 1), Up(Bits(w[2]), 2), Up(Bits(w[3]), 3));
  }

  /** A register moved down by k bytes, and its byte k. */
  function Part(x: Reg, k: nat): Reg {
    if k == 0 then x else if k == 1 then Reg(x.bits >> 8)
    else if k == 2 then Reg(x.bits >> 16) else Reg(x.bits >> 24)
  }

  function ByteAt(x: Reg, k: nat): Reg {
    Low(Part(x, k))
  }

  lemma WordBytes(a: Reg, b: Reg, c: Reg, d: Reg)
    requires Low(a) == a && Low(b) == b && Low(c) == c && Low(d) == d
    ensures var x := Xor(Xor(Xor(a, Up(b, 1)), Up(c, 2)), Up(d, 3));
      ByteAt(x, 0) == a && ByteAt(x, 1) == b && ByteAt(x, 2) == c && ByteAt(x, 3) == d
  {
  }

  lemma BytesDecide(x: Reg, y: Reg)
    requires ByteAt(x, 0) == ByteAt(y, 0) && ByteAt(x, 1) == ByteAt(y, 1)
    requires ByteAt(x, 2) == ByteAt(y, 2) && ByteAt(x, 3) == ByteAt(y, 3)
    ensures x == y
  {
  }

  lemma WordOf(w: seq<Byte>)
    requires |w| == 4
    ensures ByteAt(Word(w), 0) == Bits(w[0]) && ByteAt(Word(w), 1) == Bits(w[1])
    ensures ByteAt(Word(w), 2) == Bits(w[2]) && ByteAt(Word(w), 3) == Bits(w[3])
  {
    hide Bits, Xor, Up, Low, ByteAt, LowByte;
    BitsOfByte(w[0]);
    BitsOfByte(w[1]);
    BitsOfByte(w[2]);
    BitsOfByte(w[3]);
    WordBytes(Bits(w[0]), Bits(w[1]), Bits(w[2]), Bits(w[3]));
  }

  lemma WordInjective(u: seq<Byte>, w: seq<Byte>)
    requires |u| == |w| == 4 && Word(u) == Word(w)
    ensures u == w
  {
    hide Bits, Word, ByteAt;
    WordOf(u);
    WordOf(w);
    BitsInjective(u[0], w[0]);
    BitsInjective(u[1], w[1]);
    BitsInjective(u[2], w[2]);
    BitsInjective(u[3], w[3]);
  }

  lemma FourBytesInjective(c: Reg, u: seq<Byte>, w: seq<Byte>)
    requires |u| == |w| == 4 && Register(c, u) == Register(c, w)
    ensures u == w
  {
    hide Shift, Xor, Word, Register;
    FourBytes(c, u);
    FourBytes(c, w);
    ShiftInjective(Xor(c, Word(u)), Xor(c, Word(w)), 32);
    XorComm(c, Word(u));
    XorComm(c, Word(w));
    XorCancel(Word(u), Word(w), c);
    WordInjective(u, w);
  }

  /** Feeding bytes never merges two registers. */
  lemma {:induction false} RegisterInjective(c: Reg, d: Reg, data: seq<Byte>)
    requires Register(c, data) == Register(d, data)
    ensures c == d
    decreases |data|
  {
    hide Shift, Xor, Bits;
    if data != [] {
      var b := Bits(data[0]);
      RegisterInjective(Shift(Xor(c, b), 8), Shift(Xor(d, b), 8), data[1..]);
      ShiftInjective(Xor(c, b), Xor(d, b), 8);
      XorCancel(c, d, b);
    }
  }

  lemma PadDiffers(u: seq<Byte>, w: seq<Byte>, pad: seq<Byte>)
    requires |u| == |w| && u != w
    ensures u + pad != w + pad
  {
    assert u == (u + pad)[..|u|] && w == (w + pad)[..|u|];
  }

  /** Main result: two files that differ only within four consecutive bytes have different CRCs. */
  lemma BurstDetected(before: seq<Byte>, u: seq<Byte>, w: seq<Byte>, after: seq<Byte>)
    requires |u| == |w| <= 4 && u != w
    ensures Crc(before + u + after) != Crc(before + w + after)
  {
    hide Register, Xor;
    var c := Register(ONES, before);
    RegisterSplit(ONES, before + u, after);
    RegisterSplit(ONES, before + w, after);
    RegisterSplit(ONES, before, u);
    RegisterSplit(ONES, before, w);
    if Crc(before + u + after) == Crc(before + w + after) {
      XorCancel(Register(Register(c, u), after), Register(Register(c, w), after), ONES);
      RegisterInjective(Register(c, u), Register(c, w), after);
      // A shorter burst is a four-byte burst whose last bytes agree.
      var pad := seq<Byte>(4 - |u|, _ => 0);
      RegisterSplit(c, u, pad);
      RegisterSplit(c, w, pad);
      PadDiffers(u, w, pad);
      FourBytesInjective(c, u + pad, w + pad);
    }
  }

  // Exactly what goes unseen.

  /** Where two bytes differ. */
  function MixByte(a: Byte, b: Byte): Byte {
    LowByte(Xor(Bits(a), Bits(b)))
  }

  function Mix(a: seq<Byte>, b: seq<Byte>): (r: seq<Byte>)
    requires |a| == |b|
    ensures |r| == |a|
  {
    seq(|a|, i requires 0 <= i < |a| => MixByte(a[i], b[i]))
  }

  lemma LowXor(x: Reg, y: Reg)
    ensures Low(Xor(x, y)) == Xor(Low(x), Low(y))
  {
  }

  lemma BitsMix(a: Byte, b: Byte)
    ensures Bits(MixByte(a, b)) == Xor(Bits(a), Bits(b))
  {
    hide Bits, LowByte, Low, Xor;
    BitsOfByte(a);
    BitsOfByte(b);
    LowXor(Bits(a), Bits(b));
    BitsOfLowByte(Xor(Bits(a), Bits(b)));
  }

  /** (c + x) + (d + y) == (c + d) + (x + y) */
  lemma XorPairs(c: Reg, d: Reg, x: Reg, y: Reg)
    ensures Xor(Xor(c, x), Xor(d, y)) == Xor(Xor(c, d), Xor(x, y))
  {
    hide Xor;
    XorAssoc(c, x, Xor(d, y));
    XorAssoc(x, d, y);
    XorComm(x, d);
    XorAssoc(d, x, y);
    XorAssoc(c, d, Xor(x, y));
  }

  /** The register is linear: the difference of two registers only depends on the difference of their
      starts and of the streams. */
  lemma {:induction false} RegisterMix(c: Reg, d: Reg, a: seq<Byte>, b: seq<Byte>)
    requires |a| == |b|
    ensures Xor(Register(c, a), Register(d, b)) == Register(Xor(c, d), Mix(a, b))
    decreases |a|
  {
    hide Shift, Xor, Bits, MixByte;
    if a != [] {
      var c', d' := Shift(Xor(c, Bits(a[0])), 8), Shift(Xor(d, Bits(b[0])), 8);
      assert Mix(a, b)[1..] == Mix(a[1..], b[1..]);
      RegisterMix(c', d', a[1..], b[1..]);
      ShiftXor(Xor(c, Bits(a[0])), Xor(d, Bits(b[0])), 8);
      XorPairs(c, d, Bits(a[0]), Bits(b[0]));
      BitsMix(a[0], b[0]);
    }
  }

  lemma XorZero(x: Reg, y: Reg)
    ensures Xor(x, y) == ZERO <==> x == y
  {
    hide Xor;
    XorSelf(x);
    if Xor(x, y) == ZERO {
      XorSelf(y);
      XorCancel(x, y, y);
    }
  }

  /** Main result: two files of equal length have the same CRC exactly when their
      difference, fed alone from an empty register, leaves the register empty. */
  lemma CollisionExact(a: seq<Byte>, b: seq<Byte>)
    requires |a| == |b|
    ensures Crc(a) == Crc(b) <==> Register(ZERO, Mix(a, b)) == ZERO
  {
    hide Register, Xor, Mix;
    RegisterMix(ONES, ONES, a, b);
    XorSelf(ONES);
    XorZero(Register(ONES, a), Register(ONES, b));
    if Crc(a) == Crc(b) {
      XorCancel(Register(ONES, a), Register(ONES, b), ONES);
    }
  }

  lemma RegisterFive(c: Reg, w: seq<Byte>)
    requires |w| == 5
    ensures Register(c, w) == Shift(Xor(Shift(Xor(c, Bits(w[0])), 8), Word(w[1..])), 32)
  {
    hide Shift, Bits, Xor, Word;
    FourBytes(Shift(Xor(c, Bits(w[0])), 8), w[1..]);
  }

  /** Main result: a change within five consecutive bytes goes unseen exactly when the change of the last
      four is what eight division steps make of the change of the first. */
  lemma FiveByteBursts(before: seq<Byte>, u: seq<Byte>, w: seq<Byte>, after: seq<Byte>)
    requires |u| == |w| == 5
    ensures Crc(before + u + after) == Crc(before + w + after) <==>
            Xor(Word(u[1..]), Word(w[1..])) == Shift(Xor(Bits(u[0]), Bits(w[0])), 8)
  {
    hide Register, Xor, Word, Shift, Bits;
    var c := Register(ONES, before);
    RegisterSplit(ONES, before + u, after);
    RegisterSplit(ONES, before + w, after);
    RegisterSplit(ONES, before, u);
    RegisterSplit(ONES, before, w);
    FiveByteRegisters(c, u, w);
    if Crc(before + u + after) == Crc(before + w + after) {
      XorCancel(Register(Register(c, u), after), Register(Register(c, w), after), ONES);
      RegisterInjective(Register(c, u), Register(c, w), after);
    }
  }

  lemma FiveByteRegisters(c: Reg, u: seq<Byte>, w: seq<Byte>)
    requires |u| == |w| == 5
    ensures Register(c, u) == Register(c, w) <==>
            Xor(Word(u[1..]), Word(w[1..])) == Shift(Xor(Bits(u[0]), Bits(w[0])), 8)
  {
    hide Register, Xor, Word, Shift, Bits;
    RegisterFive(c, u);
    RegisterFive(c, w);
    var p, q := Shift(Xor(c, Bits(u[0])), 8), Shift(Xor(c, Bits(w[0])), 8);
    var x, y := Word(u[1..]), Word(w[1..]);
    ShiftXor(Xor(c, Bits(u[0])), Xor(c, Bits(w[0])), 8);
    XorTwice(c, Bits(u[0]), Bits(w[0]));
    XorPairs(p, q, x, y);
    XorZero(Xor(p, x), Xor(q, y));
    XorZero(Xor(p, q), Xor(x, y));
    if Register(c, u) == Register(c, w) {
      ShiftInjective(Xor(p, x), Xor(q, y), 32);
    }
  }

  lemma SomeBytes()
    ensures Bits(0) == ZERO && Bits(0x41) == Reg(0x41) && Bits(0x06) == Reg(0x06)
    ensures Bits(0x71) == Reg(0x71) && Bits(0xDB) == Reg(0xDB) && Bits(0x01) == Reg(0x01)
  {
  }

  lemma EntryBits()
    ensures EightBits(Reg(0x41)) == Reg(0x01DB_7106)
  {
  }

  lemma SomeUps()
    ensures Up(Reg(0x71), 1) == Reg(0x7100) && Up(Reg(0xDB), 2) == Reg(0xDB_0000) && Up(Reg(0x01), 3) == Reg(0x100_0000)
    ensures Up(ZERO, 1) == ZERO && Up(ZERO, 2) == ZERO && Up(ZERO, 3) == ZERO
  {
  }

  lemma SomeXors()
    ensures Xor(Xor(Xor(Reg(0x06), Reg(0x7100)), Reg(0xDB_0000)), Reg(0x100_0000)) == Reg(0x01DB_7106)
  {
  }

  /** So four bytes is the limit of what is always seen: here is a change of five bytes that never is. */
  lemma FiveBytesMayPass(before: seq<Byte>, after: seq<Byte>)
    ensures Crc(before + [0x41, 0x06, 0x71, 0xDB, 0x01] + after) == Crc(before + [0, 0, 0, 0, 0] + after)
  {
    hide Xor, Bits, Up, Crc, Shift, EightBits;
    var u, w := [0x41, 0x06, 0x71, 0xDB, 0x01], [0, 0, 0, 0, 0];
    SomeBytes();
    SomeUps();
    SomeXors();
    EntryBits();
    XorSelf(ZERO);
    XorSelf(Reg(0x41));
    XorSelf(Reg(0x01DB_7106));
    EightSteps(Reg(0x41));
    assert u[1..] == [0x06, 0x71, 0xDB, 0x01] && w[1..] == [0, 0, 0, 0];
    FiveByteBursts(before, u, w, after);
  }

  // The digest string.

  const DIGITS: Text := Ascii("0123456789abcdef")

  function HexDigit(i: nat): Byte
    requires i < 16
  {
    DIGITS[i]
  }

  function Hex(data: seq<Byte>): (t: Text)
    ensures |t| == 2 * |data|
  {
    if data == [] then [] else [HexDigit(data[0] / 16), HexDigit(data[0] % 16)] + Hex(data[1..])
  }

  function CrcBytes(c: Reg): (r: seq<Byte>)
    ensures |r| == 4
  {
    [LowByte(Part(c, 3)), LowByte(Part(c, 2)), LowByte(Part(c, 1)), LowByte(Part(c, 0))]
  }

  function Digest(data: seq<Byte>): (t: Text)
    ensures |t| == 8
  {
    Hex(CrcBytes(Crc(data)))
  }

  lemma DigitsDiffer(i: nat, j: nat)
    requires i < 16 && j < 16 && HexDigit(i) == HexDigit(j)
    ensures i == j
  {
  }

  lemma {:induction false} HexInjective(a: seq<Byte>, b: seq<Byte>)
    requires |a| == |b| && Hex(a) == Hex(b)
    ensures a == b
    decreases |a|
  {
    hide HexDigit;
    if a != [] {
      var x, y := [HexDigit(a[0] / 16), HexDigit(a[0] % 16)], [HexDigit(b[0] / 16), HexDigit(b[0] % 16)];
      assert x == Hex(a)[..2] && y == Hex(b)[..2];
      assert Hex(a[1..]) == Hex(a)[2..] && Hex(b[1..]) == Hex(b)[2..];
      DigitsDiffer(a[0] / 16, b[0] / 16);
      DigitsDiffer(a[0] % 16, b[0] % 16);
      HexInjective(a[1..], b[1..]);
    }
  }

  lemma CrcBytesBits(c: Reg)
    ensures Bits(CrcBytes(c)[0]) == ByteAt(c, 3) && Bits(CrcBytes(c)[1]) == ByteAt(c, 2)
    ensures Bits(CrcBytes(c)[2]) == ByteAt(c, 1) && Bits(CrcBytes(c)[3]) == ByteAt(c, 0)
  {
    hide LowByte, Low, Bits, Part;
    BitsOfLowByte(Part(c, 0));
    BitsOfLowByte(Part(c, 1));
    BitsOfLowByte(Part(c, 2));
    BitsOfLowByte(Part(c, 3));
  }

  lemma DigestInjective(a: seq<Byte>, b: seq<Byte>)
    requires Digest(a) == Digest(b)
    ensures Crc(a) == Crc(b)
  {
    hide Crc, CrcBytes, Hex, ByteAt, Bits;
    HexInjective(CrcBytes(Crc(a)), CrcBytes(Crc(b)));
    CrcBytesBits(Crc(a));
    CrcBytesBits(Crc(b));
    BytesDecide(Crc(a), Crc(b));
  }

  // Verification of a file against an expected digest.

  function LowerByte(b: Byte): Byte {
    if 65 <= b <= 90 then b + 32 else b
  }

  function Lower(t: Text): (r: Text)
    ensures |r| == |t|
  {
    seq(|t|, i requires 0 <= i < |t| => LowerByte(t[i]))
  }

  /** A file passes when it can be opened and either no digest is expected or the digests agree up to
      the case of their letters. */
  predicate Passes(file: Option<seq<Byte>>, expected: Text) {
    file.Some? && (expected == [] || Lower(Digest(file.value)) == Lower(expected))
  }

  lemma {:induction false} HexIsLower(data: seq<Byte>)
    ensures Lower(Hex(data)) == Hex(data)
    decreases |data|
  {
    hide HexDigit, LowerByte;
    if data != [] {
      HexIsLower(data[1..]);
      var head := [HexDigit(data[0] / 16), HexDigit(data[0] % 16)];
      DigitIsLower(data[0] / 16);
      DigitIsLower(data[0] % 16);
      assert Lower(head) == head;
      assert Lower(head + Hex(data[1..])) == Lower(head) + Lower(Hex(data[1..]));
    }
  }

  lemma DigitIsLower(i: nat)
    requires i < 16
    ensures LowerByte(HexDigit(i)) == HexDigit(i)
  {
  }

  /** Against the digest of another file, a file passes exactly when the two have the same CRC. */
  lemma PassesExact(original: seq<Byte>, image: seq<Byte>)
    ensures Passes(Some(image), Digest(original)) <==> Crc(image) == Crc(original)
  {
    hide Crc, Hex, CrcBytes, Lower;
    HexIsLower(CrcBytes(Crc(original)));
    HexIsLower(CrcBytes(Crc(image)));
    if Digest(image) == Digest(original) {
      DigestInjective(image, original);
    }
  }

  /** Main result: against the digest of the original, an image of the same length passes verification
      exactly when the difference, fed alone from an empty register, leaves the register empty. */
  lemma VerifyExact(original: seq<Byte>, image: seq<Byte>)
    requires |image| == |original|
    ensures Passes(Some(image), Digest(original)) <==> Register(ZERO, Mix(image, original)) == ZERO
  {
    hide Crc, Digest, Passes, Mix, Register;
    PassesExact(original, image);
    CollisionExact(image, original);
  }

  /** Main result: an image that was damaged within four consecutive bytes never passes verification
      against the digest of the original; the original passes. */
  lemma VerifyDetectsBurst(before: seq<Byte>, u: seq<Byte>, w: seq<Byte>, after: seq<Byte>)
    requires |u| == |w| <= 4
    ensures Passes(Some(before + w + after), Digest(before + u + after)) <==> u == w
  {
    hide Crc, Digest, Passes;
    PassesExact(before + u + after, before + w + after);
    if u != w {
      BurstDetected(before, u, w, after);
    }
  }

  // The code.

  method BuildTable() returns (table: array<Reg>)
    ensures fresh(table) && table.Length == 256
    ensures forall i: Byte :: table[i] == Shift(Bits(i), 8)
  {
    hide Bits, Shift;
    table := new Reg[256](_ => ZERO);
    for i := 0 to 256
      invariant forall j :: 0 <= j < i ==> table[j] == Shift(Bits(j), 8)
    {
      table[i] := TableEntry(i);
    }
  }

  /** The bit loop behind one table entry. */
  method TableEntry(i: Byte) returns (c: Reg)
    ensures c == Shift(Bits(i), 8)
  {
    hide ShiftBit, Bits;
    c := Bits(i);
    for k := 0 to 8
      invariant Shift(c, 8 - k) == Shift(Bits(i), 8)
    {
      c := NextBit(c);
    }
    ShiftNone(c);
  }

  /** The statement inside the bit loop. */
  method NextBit(c: Reg) returns (d: Reg)
    ensures d == ShiftBit(c)
  {
    d := if c.bits & 1 != 0 then Reg(0xEDB8_8320 ^ (c.bits >> 1)) else Reg(c.bits >> 1);
  }

  const BUFFER_SIZE: nat := 4096

  /** The buffered, table-driven digest of a file; error is empty exactly when the file could be opened. */
  method ComputeDigest(file: Option<seq<Byte>>, table: array<Reg>) returns (hex: Text, error: Text)
    requires table.Length == 256 && forall i: Byte :: table[i] == Shift(Bits(i), 8)
    ensures error == [] <==> file.Some?
    ensures hex == if file.Some? then Digest(file.value) else []
  {
    hide Shift, Xor, Bits, LowByte, Down, Hex;
    if file.None? {
      return [], Ascii("cannot open file");
    }
    var data := file.value;
    var crc := ONES;
    var pos, good := 0, true;
    while good
      invariant pos <= |data| && (good || pos == |data|)
      invariant crc == Register(ONES, data[..pos])
      decreases good, |data| - pos
    {
      // A read that comes up short ends the stream.
      var count := if |data| - pos < BUFFER_SIZE then |data| - pos else BUFFER_SIZE;
      good := count == BUFFER_SIZE;
      for i := 0 to count
        invariant crc == Register(ONES, data[..pos + i])
      {
        var b := data[pos + i];
        RegisterSnoc(ONES, data[..pos + i], b);
        assert data[..pos + i] + [b] == data[..pos + i + 1];
        TableStep(crc, b);
        crc := Xor(table[LowByte(Xor(crc, Bits(b)))], Down(crc));
      }
      pos := pos + count;
    }
    assert data[..pos] == data;
    crc := Xor(crc, ONES);
    hex := BytesToHex(CrcBytes(crc));
    error := [];
  }

  lemma HexGrows(out: Text, high: Byte, low: Byte, rest: Text)
    ensures out + [high] + [low] + rest == out + ([high, low] + rest)
  {
  }

  method BytesToHex(data: seq<Byte>) returns (out: Text)
    ensures out == Hex(data)
  {
    hide HexDigit;
    out := [];
    for i := 0 to |data|
      invariant out + Hex(data[i..]) == Hex(data)
    {
      assert data[i..][1..] == data[i + 1..];
      HexGrows(out, HexDigit(data[i] / 16), HexDigit(data[i] % 16), Hex(data[i + 1..]));
      out := out + [HexDigit(data[i] / 16)];
      out := out + [HexDigit(data[i] % 16)];
    }
  }

  method Verify(file: Option<seq<Byte>>, expected: Text) returns (ok: bool)
    ensures ok == Passes(file, expected)
  {
    var table := BuildTable();
    var actual, error := ComputeDigest(file, table);
    if error != [] {
      return false;
    }
    if expected == [] {
      return true;
    }
    return Lower(actual) == Lower(expected);
  }
}
