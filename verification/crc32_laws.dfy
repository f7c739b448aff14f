/** Laws that tie the checksum to the numbers of section 8 of RFC 1952, and the digest to its text. */
module Crc32Laws {
  import opened Bytes
  import opened Crc32

  // The residue.

  lemma Recomposed(c: Reg)
    ensures Word([CrcBytes(c)[3], CrcBytes(c)[2], CrcBytes(c)[1], CrcBytes(c)[0]]) == c
  {
    hide CrcBytes, Bits, ByteAt, Word;
    var w := [CrcBytes(c)[3], CrcBytes(c)[2], CrcBytes(c)[1], CrcBytes(c)[0]];
    CrcBytesBits(c);
    WordOf(w);
    BytesDecide(Word(w), c);
  }

  lemma OnesThroughFour()
    ensures EightBits(ONES) == Reg(0x2DFD_1072) && EightBits(Reg(0x2DFD_1072)) == Reg(0xBE26_ED00)
    ensures EightBits(Reg(0xBE26_ED00)) == Reg(0x00BE_26ED) && EightBits(Reg(0x00BE_26ED)) == Reg(0xDEBB_20E3)
  {
  }

  lemma OnesShifted()
    ensures Shift(ONES, 32) == Reg(0xDEBB_20E3)
  {
    hide Shift, EightBits;
    OnesThroughFour();
    EightSteps(ONES);
    EightSteps(Reg(0x2DFD_1072));
    EightSteps(Reg(0xBE26_ED00));
    EightSteps(Reg(0x00BE_26ED));
    ShiftAdd(ONES, 8, 8);
    ShiftAdd(ONES, 16, 8);
    ShiftAdd(ONES, 24, 8);
  }

  /** The four bytes of the checksum of a file, least significant first. */
  function Trailer(data: seq<Byte>): seq<Byte> {
    var bytes := CrcBytes(Crc(data));
    [bytes[3], bytes[2], bytes[1], bytes[0]]
  }

  /** Main result: whatever the file, the register after the file and its own checksum, least significant
      byte first, is the same constant. Start value, inversion and byte order are all in it. */
  lemma Residue(data: seq<Byte>)
    ensures Register(Reg(0xFFFF_FFFF), data + Trailer(data)) == Reg(0xDEBB_20E3)
  {
    hide Register, CrcBytes, Word, Shift, Xor;
    var r := Register(ONES, data);
    RegisterSplit(ONES, data, Trailer(data));
    FourBytes(r, Trailer(data));
    Recomposed(Crc(data));
    XorAssoc(r, r, ONES);
    XorSelf(r);
    XorComm(ZERO, ONES);
    XorSelf(ONES);
    OnesShifted();
  }

  // The digest's text.

  /** What a hexadecimal digit stands for; 16 is none. */
  function HexValue(b: Byte): nat {
    if 48 <= b <= 57 then b - 48 else if 97 <= b <= 102 then b - 87 else 16
  }

  function ReadHex(t: Text): nat {
    if t == [] then 0 else ReadHex(t[..|t| - 1]) * 16 + HexValue(t[|t| - 1])
  }

  function BigEndian(data: seq<Byte>): nat {
    if data == [] then 0 else BigEndian(data[..|data| - 1]) * 256 + data[|data| - 1]
  }

  lemma DigitValue(i: nat)
    requires i < 16
    ensures HexValue(HexDigit(i)) == i
  {
  }

  lemma {:induction false} HexSnoc(data: seq<Byte>, b: Byte)
    ensures Hex(data + [b]) == Hex(data) + [HexDigit(b / 16), HexDigit(b % 16)]
  {
    hide HexDigit;
    if data == [] {
      assert [b][1..] == [] && Hex([b]) == [HexDigit(b / 16), HexDigit(b % 16)] + Hex([]);
    } else {
      assert (data + [b])[1..] == data[1..] + [b];
      HexSnoc(data[1..], b);
    }
  }

  lemma {:induction false} HexReadsBack(data: seq<Byte>)
    ensures ReadHex(Hex(data)) == BigEndian(data)
    decreases |data|
  {
    hide HexDigit, HexValue, Hex;
    if data == [] {
      HexNothing();
    } else {
      var before, b := data[..|data| - 1], data[|data| - 1];
      assert data == before + [b];
      HexReadsBack(before);
      HexSnoc(before, b);
      ReadTwo(Hex(before), HexDigit(b / 16), HexDigit(b % 16));
      DigitValue(b / 16);
      DigitValue(b % 16);
    }
  }

  lemma HexNothing()
    ensures Hex([]) == []
  {
  }

  lemma ReadTwo(t: Text, high: Byte, low: Byte)
    ensures ReadHex(t + [high, low]) == ReadHex(t) * 256 + HexValue(high) * 16 + HexValue(low)
  {
    hide HexValue;
    assert (t + [high, low])[..|t| + 1] == t + [high];
    assert (t + [high])[..|t|] == t;
  }

  lemma FromBitsStep(x: Reg, n: nat)
    requires n > 0
    ensures FromBits(x, n) == FromBits(Half(x), n - 1) * 2 + (if Odd(x) then 1 else 0)
  {
    hide Half, Odd;
  }

  lemma EightHalvesDown(x: Reg)
    ensures Half(Half(Half(Half(Half(Half(Half(Half(x)))))))) == Down(x)
  {
  }

  /** Two bits of a number and the rest. */
  lemma TwoBits(x: Reg, n: nat)
    requires n >= 2
    ensures FromBits(x, n) == FromBits(x, 2) + 4 * FromBits(Half(Half(x)), n - 2)
  {
    hide FromBits, Half, Odd;
    FromBitsStep(x, n);
    FromBitsStep(Half(x), n - 1);
    FromBitsStep(x, 2);
    FromBitsStep(Half(x), 1);
    NoBits(Half(Half(x)));
  }

  lemma FourBits(x: Reg, n: nat)
    requires n >= 4
    ensures FromBits(x, n) == FromBits(x, 4) + 16 * FromBits(Half(Half(Half(Half(x)))), n - 4)
  {
    hide FromBits, Half;
    TwoBits(x, n);
    TwoBits(Half(Half(x)), n - 2);
    TwoBits(x, 4);
    TwoBits(Half(Half(x)), 2);
    NoBits(Half(Half(Half(Half(x)))));
  }

  /** The number a register stands for, by its lowest byte and the rest. */
  lemma ByteSplit(x: Reg, n: nat)
    ensures FromBits(x, 8 + n) == LowByte(x) + 256 * FromBits(Down(x), n)
  {
    hide FromBits, Half, Down;
    var high := Half(Half(Half(Half(x))));
    Pow2Eight();
    FourBits(x, 8 + n);
    FourBits(high, 4 + n);
    FourBits(x, 8);
    FourBits(high, 4);
    NoBits(Half(Half(Half(Half(high)))));
    EightHalvesDown(x);
    assert LowByte(x) == FromBits(x, 8);
  }

  lemma PartOne(x: Reg)
    ensures Part(x, 0) == x && Down(x) == Part(x, 1)
  {
  }

  lemma PartTwo(x: Reg)
    ensures Down(Part(x, 1)) == Part(x, 2)
  {
  }

  lemma PartThree(x: Reg)
    ensures Down(Part(x, 2)) == Part(x, 3)
  {
  }

  lemma NoBits(x: Reg)
    ensures FromBits(x, 0) == 0
  {
  }

  lemma BytesValue(c: Reg)
    ensures BigEndian(CrcBytes(c)) == FromBits(c, 32)
  {
    hide FromBits, LowByte, Down, Part;
    PartOne(c);
    PartTwo(c);
    PartThree(c);
    ByteSplit(c, 24);
    ByteSplit(Part(c, 1), 16);
    ByteSplit(Part(c, 2), 8);
    ByteSplit(Part(c, 3), 0);
    NoBits(Down(Part(c, 3)));
    FourBigEndian(CrcBytes(c));
  }

  lemma BigEndianSnoc(s: seq<Byte>, b: Byte)
    ensures BigEndian(s + [b]) == BigEndian(s) * 256 + b
  {
    assert (s + [b])[..|s|] == s;
  }

  lemma FourBigEndian(s: seq<Byte>)
    requires |s| == 4
    ensures BigEndian(s) == s[3] + 256 * (s[2] + 256 * (s[1] + 256 * (s[0] as nat)))
  {
    hide BigEndian;
    BigEndianNothing();
    BigEndianSnoc([], s[0]);
    BigEndianSnoc([s[0]], s[1]);
    BigEndianSnoc([s[0], s[1]], s[2]);
    BigEndianSnoc([s[0], s[1], s[2]], s[3]);
    assert [] + [s[0]] == [s[0]] && [s[0]] + [s[1]] == [s[0], s[1]] && [s[0], s[1]] + [s[2]] == [s[0], s[1], s[2]];
    assert [s[0], s[1], s[2]] + [s[3]] == s;
  }

  lemma BigEndianNothing()
    ensures BigEndian([]) == 0
  {
  }

  /** Main result: the digest's eight digits, read as a hexadecimal number, are the checksum. */
  lemma DigestValue(data: seq<Byte>)
    ensures |Digest(data)| == 8 && ReadHex(Digest(data)) == FromBits(Crc(data), 32)
    ensures forall b :: b in Digest(data) ==> HexValue(b) < 16
  {
    hide Crc, CrcBytes, FromBits, ReadHex, Hex, HexValue;
    HexReadsBack(CrcBytes(Crc(data)));
    BytesValue(Crc(data));
    OnlyDigits(CrcBytes(Crc(data)));
  }

  lemma {:induction false} OnlyDigits(data: seq<Byte>)
    ensures forall b :: b in Hex(data) ==> HexValue(b) < 16
    decreases |data|
  {
    hide HexDigit, HexValue;
    if data != [] {
      OnlyDigits(data[1..]);
      DigitValue(data[0] / 16);
      DigitValue(data[0] % 16);
    }
  }

  /** Two letters that differ at most in case. */
  predicate SameLetter(a: Byte, b: Byte) {
    a == b || (65 <= a <= 90 && b == a + 32) || (65 <= b <= 90 && a == b + 32)
  }

  lemma LowerIsCase(a: Byte, b: Byte)
    ensures LowerByte(a) == LowerByte(b) <==> SameLetter(a, b)
  {
  }

  /** Main result: a file that can be opened passes exactly when no digest is expected, or the expected one
      is its own digest up to the case of the letters; no other file passes. */
  lemma PassesLetters(file: Option<seq<Byte>>, expected: Text)
    ensures Passes(file, expected) <==>
      file.Some? &&
      (expected == [] ||
       (|expected| == 8 && forall i :: 0 <= i < 8 ==> SameLetter(Digest(file.value)[i], expected[i])))
  {
    hide Digest, LowerByte, SameLetter;
    if file.Some? && expected != [] {
      var actual := Digest(file.value);
      assert |actual| == 8;
      forall i | 0 <= i < 8 && i < |expected|
        ensures Lower(actual)[i] == Lower(expected)[i] <==> SameLetter(actual[i], expected[i])
      {
        LowerIsCase(actual[i], expected[i]);
      }
    }
  }

  // Known values.

  const CHECK: seq<Byte> := [0x31, 0x32, 0x33, 0x34, 0x35, 0x36, 0x37, 0x38, 0x39]

  lemma CheckIsAscii()
    ensures CHECK == Ascii("123456789")
  {
  }

  /** One byte of a stream, evaluated. */
  lemma Feed(c: Reg, x: Reg, next: Reg, data: seq<Byte>)
    requires data != [] && x == Xor(c, Bits(data[0])) && EightBits(x) == next
    ensures Register(c, data) == Register(next, data[1..])
  {
    hide Shift, Xor, Bits, EightBits;
    EightSteps(x);
  }

  /** A byte's register, digit by digit. */
  function EightDigits(b7: bool, b6: bool, b5: bool, b4: bool, b3: bool, b2: bool, b1: bool, b0: bool): Reg {
    Digit(Digit(Digit(Digit(Digit(Digit(Digit(Digit(ZERO, b7), b6), b5), b4), b3), b2), b1), b0)
  }

  function Num(high: nat, one: bool): nat {
    high * 2 + (if one then 1 else 0)
  }

  lemma BitsDigits(b: Byte, b7: bool, b6: bool, b5: bool, b4: bool, b3: bool, b2: bool, b1: bool, b0: bool)
    requires b == Num(Num(Num(Num(Num(Num(Num(Num(0, b7), b6), b5), b4), b3), b2), b1), b0)
    ensures Bits(b) == EightDigits(b7, b6, b5, b4, b3, b2, b1, b0)
  {
    hide Digit, ToBits;
    var v7 := Num(0, b7);
    var v6 := Num(v7, b6);
    var v5 := Num(v6, b5);
    var v4 := Num(v5, b4);
    var v3 := Num(v4, b3);
    var v2 := Num(v3, b2);
    var v1 := Num(v2, b1);
    ToFromStep(0, b7, 1);
    ToFromStep(v7, b6, 2);
    ToFromStep(v6, b5, 3);
    ToFromStep(v5, b4, 4);
    ToFromStep(v4, b3, 5);
    ToFromStep(v3, b2, 6);
    ToFromStep(v2, b1, 7);
    ToFromStep(v1, b0, 8);
    NoDigits();
  }

  lemma NoDigits()
    ensures ToBits(0, 0) == ZERO
  {
  }

  lemma EvenDigits()
    ensures EightDigits(false, false, true, true, false, false, true, false) == Reg(0x32)
    ensures EightDigits(false, false, true, true, false, true, false, false) == Reg(0x34)
    ensures EightDigits(false, false, true, true, false, true, true, false) == Reg(0x36)
    ensures EightDigits(false, false, true, true, true, false, false, false) == Reg(0x38)
  {
  }

  lemma OddDigits()
    ensures EightDigits(false, false, true, true, false, false, false, true) == Reg(0x31)
    ensures EightDigits(false, false, true, true, false, false, true, true) == Reg(0x33)
    ensures EightDigits(false, false, true, true, false, true, false, true) == Reg(0x35)
    ensures EightDigits(false, false, true, true, false, true, true, true) == Reg(0x37)
    ensures EightDigits(false, false, true, true, true, false, false, true) == Reg(0x39)
  {
  }

  lemma SumDigits()
    ensures EightDigits(true, true, false, false, true, false, true, true) == Reg(0xCB)
    ensures EightDigits(true, true, true, true, false, true, false, false) == Reg(0xF4)
    ensures EightDigits(false, false, true, false, false, true, true, false) == Reg(0x26)
  {
  }

  lemma EvenBytes()
    ensures Bits(0x32) == Reg(0x32)
    ensures Bits(0x34) == Reg(0x34)
    ensures Bits(0x36) == Reg(0x36)
    ensures Bits(0x38) == Reg(0x38)
  {
    hide EightDigits, Bits;
    EvenDigits();
    BitsDigits(0x32, false, false, true, true, false, false, true, false);
    BitsDigits(0x34, false, false, true, true, false, true, false, false);
    BitsDigits(0x36, false, false, true, true, false, true, true, false);
    BitsDigits(0x38, false, false, true, true, true, false, false, false);
  }

  lemma OddBytes()
    ensures Bits(0x31) == Reg(0x31)
    ensures Bits(0x33) == Reg(0x33)
    ensures Bits(0x35) == Reg(0x35)
    ensures Bits(0x37) == Reg(0x37)
    ensures Bits(0x39) == Reg(0x39)
  {
    hide EightDigits, Bits;
    OddDigits();
    BitsDigits(0x31, false, false, true, true, false, false, false, true);
    BitsDigits(0x33, false, false, true, true, false, false, true, true);
    BitsDigits(0x35, false, false, true, true, false, true, false, true);
    BitsDigits(0x37, false, false, true, true, false, true, true, true);
    BitsDigits(0x39, false, false, true, true, true, false, false, true);
  }

  lemma SumBytes()
    ensures Bits(0xCB) == Reg(0xCB)
    ensures Bits(0xF4) == Reg(0xF4)
    ensures Bits(0x26) == Reg(0x26)
  {
    hide EightDigits, Bits;
    SumDigits();
    BitsDigits(0xCB, true, true, false, false, true, false, true, true);
    BitsDigits(0xF4, true, true, true, true, false, true, false, false);
    BitsDigits(0x26, false, false, true, false, false, true, true, false);
  }

  lemma FirstThree()
    ensures Xor(ONES, Reg(0x31)) == Reg(0xFFFF_FFCE) && EightBits(Reg(0xFFFF_FFCE)) == Reg(0x7C23_1048)
    ensures Xor(Reg(0x7C23_1048), Reg(0x32)) == Reg(0x7C23_107A) && EightBits(Reg(0x7C23_107A)) == Reg(0xB0AC_BB32)
    ensures Xor(Reg(0xB0AC_BB32), Reg(0x33)) == Reg(0xB0AC_BB01) && EightBits(Reg(0xB0AC_BB01)) == Reg(0x77B7_9C2D)
  {
  }

  lemma NextThree()
    ensures Xor(Reg(0x77B7_9C2D), Reg(0x34)) == Reg(0x77B7_9C19) && EightBits(Reg(0x77B7_9C19)) == Reg(0x641C_1F5C)
    ensures Xor(Reg(0x641C_1F5C), Reg(0x35)) == Reg(0x641C_1F69) && EightBits(Reg(0x641C_1F69)) == Reg(0x340A_C5E3)
    ensures Xor(Reg(0x340A_C5E3), Reg(0x36)) == Reg(0x340A_C5D5) && EightBits(Reg(0x340A_C5D5)) == Reg(0xF68D_2C9E)
  {
  }

  lemma LastThree()
    ensures Xor(Reg(0xF68D_2C9E), Reg(0x37)) == Reg(0xF68D_2CA9) && EightBits(Reg(0xF68D_2CA9)) == Reg(0xAFFC_9660)
    ensures Xor(Reg(0xAFFC_9660), Reg(0x38)) == Reg(0xAFFC_9658) && EightBits(Reg(0xAFFC_9658)) == Reg(0x651F_2550)
    ensures Xor(Reg(0x651F_2550), Reg(0x39)) == Reg(0x651F_2569) && EightBits(Reg(0x651F_2569)) == Reg(0x340B_C6D9)
  {
  }

  lemma Tails()
    ensures CHECK[1..][1..] == CHECK[2..] && CHECK[2..][1..] == CHECK[3..] && CHECK[3..][1..] == CHECK[4..]
    ensures CHECK[4..][1..] == CHECK[5..] && CHECK[5..][1..] == CHECK[6..] && CHECK[6..][1..] == CHECK[7..]
    ensures CHECK[7..][1..] == CHECK[8..] && CHECK[8..][1..] == [] && CHECK[0..] == CHECK
  {
  }

  lemma CheckRegister()
    ensures Register(ONES, CHECK) == Reg(0x340B_C6D9)
  {
    hide Xor, Bits, EightBits, Register, EightDigits;
    EvenBytes();
    OddBytes();
    FirstThree();
    NextThree();
    LastThree();
    Tails();
    Feed(ONES, Reg(0xFFFF_FFCE), Reg(0x7C23_1048), CHECK[0..]);
    Feed(Reg(0x7C23_1048), Reg(0x7C23_107A), Reg(0xB0AC_BB32), CHECK[1..]);
    Feed(Reg(0xB0AC_BB32), Reg(0xB0AC_BB01), Reg(0x77B7_9C2D), CHECK[2..]);
    Feed(Reg(0x77B7_9C2D), Reg(0x77B7_9C19), Reg(0x641C_1F5C), CHECK[3..]);
    Feed(Reg(0x641C_1F5C), Reg(0x641C_1F69), Reg(0x340A_C5E3), CHECK[4..]);
    Feed(Reg(0x340A_C5E3), Reg(0x340A_C5D5), Reg(0xF68D_2C9E), CHECK[5..]);
    Feed(Reg(0xF68D_2C9E), Reg(0xF68D_2CA9), Reg(0xAFFC_9660), CHECK[6..]);
    Feed(Reg(0xAFFC_9660), Reg(0xAFFC_9658), Reg(0x651F_2550), CHECK[7..]);
    Feed(Reg(0x651F_2550), Reg(0x651F_2569), Reg(0x340B_C6D9), CHECK[8..]);
    RegisterDone(Reg(0x340B_C6D9));
  }

  lemma RegisterDone(c: Reg)
    ensures Register(c, []) == c
  {
  }

  /** Each byte of the checksum, told by what it looks like in a register. */
  lemma ByteOf(x: Reg, b: Byte)
    requires Low(x) == Bits(b)
    ensures LowByte(x) == b
  {
    hide Low, Bits, LowByte;
    BitsOfLowByte(x);
    BitsInjective(LowByte(x), b);
  }

  lemma CheckParts()
    ensures var c := Reg(0xCBF4_3926);
      && Low(Part(c, 3)) == Reg(0xCB) && Low(Part(c, 2)) == Reg(0xF4)
      && Low(Part(c, 1)) == Reg(0x39) && Low(Part(c, 0)) == Reg(0x26)
    ensures Xor(Reg(0x340B_C6D9), ONES) == Reg(0xCBF4_3926)
  {
  }

  lemma HexFour(a: Byte, b: Byte, c: Byte, d: Byte)
    ensures Hex([a, b, c, d]) == [HexDigit(a / 16), HexDigit(a % 16), HexDigit(b / 16), HexDigit(b % 16),
                                  HexDigit(c / 16), HexDigit(c % 16), HexDigit(d / 16), HexDigit(d % 16)]
  {
    hide HexDigit;
    assert [a, b, c, d][1..] == [b, c, d] && [b, c, d][1..] == [c, d] && [c, d][1..] == [d] && [d][1..] == [];
    assert Hex([d]) == [HexDigit(d / 16), HexDigit(d % 16)];
    assert Hex([c, d]) == [HexDigit(c / 16), HexDigit(c % 16)] + Hex([d]);
    assert Hex([b, c, d]) == [HexDigit(b / 16), HexDigit(b % 16)] + Hex([c, d]);
  }

  lemma CheckDigits()
    ensures HexDigit(0x2) == 50 && HexDigit(0x3) == 51 && HexDigit(0x4) == 52 && HexDigit(0x6) == 54
    ensures HexDigit(0x9) == 57 && HexDigit(0xB) == 98 && HexDigit(0xC) == 99 && HexDigit(0xF) == 102
  {
  }

  /** The check value of CRC-32. */
  lemma CheckValue()
    ensures Digest(Ascii("123456789")) == Ascii("cbf43926")
  {
    hide Xor, Bits, Low, LowByte, Part, Register, Hex, HexDigit, EightDigits;
    CheckIsAscii();
    CheckRegister();
    CheckParts();
    OddBytes();
    SumBytes();
    var c := Reg(0xCBF4_3926);
    ByteOf(Part(c, 3), 0xCB);
    ByteOf(Part(c, 2), 0xF4);
    ByteOf(Part(c, 1), 0x39);
    ByteOf(Part(c, 0), 0x26);
    assert CrcBytes(c) == [0xCB, 0xF4, 0x39, 0x26];
    HexFour(0xCB, 0xF4, 0x39, 0x26);
    CheckDigits();
  }

  /** And of the empty file. */
  lemma EmptyFile()
    ensures Digest([]) == Ascii("00000000")
  {
    hide Xor, Bits, Low, LowByte, Part, Register, Hex, HexDigit;
    RegisterDone(ONES);
    XorSelf(ONES);
    ZeroParts();
    ByteOf(Part(ZERO, 3), 0);
    ByteOf(Part(ZERO, 2), 0);
    ByteOf(Part(ZERO, 1), 0);
    ByteOf(Part(ZERO, 0), 0);
    assert CrcBytes(ZERO) == [0, 0, 0, 0];
    HexFour(0, 0, 0, 0);
    ZeroDigit();
  }

  lemma ZeroParts()
    ensures Low(Part(ZERO, 3)) == ZERO && Low(Part(ZERO, 2)) == ZERO && Low(Part(ZERO, 1)) == ZERO
    ensures Low(Part(ZERO, 0)) == ZERO && Bits(0) == ZERO
  {
  }

  lemma ZeroDigit()
    ensures HexDigit(0) == 48
  {
  }
}
