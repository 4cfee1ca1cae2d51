/**
 The register on the machine's 32-bit words: a step is a shift and an exclusive-or, and what the
 register makes of a text can be followed on numbers.

 The bits of a number are taken four or eight at a time.
 */
module CrcMachines {
  import opened Text
  import opened Crc32

  // ---------------------------------------------------------------- the bits of the polynomial

  function Halved(v: nat, m: nat): nat {
    if m == 0 then v else Halved(v / 2, m - 1)
  }

  /** The low bits first, then the others. */
  lemma {:induction false} BitsSplit(v: nat, m: nat, n: nat)
    ensures Bits(v, m + n) == Bits(v, m) + Bits(Halved(v, m), n)
    decreases m
  {
    if m > 0 {
      BitsSplit(v / 2, m - 1, n);
      assert Bits(v, m + n) == [v % 2 == 1] + Bits(v / 2, m + n - 1);
    }
  }

  const BYTE_0: seq<bool> := [false, false, false, false, false, true, false, false]
  const BYTE_1: seq<bool> := [true, true, false, false, false, false, false, true]
  const BYTE_2: seq<bool> := [false, false, false, true, true, true, false, true]
  const BYTE_3: seq<bool> := [true, false, true, true, false, true, true, true]

  lemma Byte0()
    ensures Bits(0xEDB88320, 8) == BYTE_0
  {
  }

  lemma Byte1()
    ensures Bits(0xEDB883, 8) == BYTE_1
  {
  }

  lemma Byte2()
    ensures Bits(0xEDB8, 8) == BYTE_2
  {
  }

  lemma Byte3()
    ensures Bits(0xED, 8) == BYTE_3
  {
  }

  lemma Rest0()
    ensures Halved(0xEDB88320, 8) == 0xEDB883
  {
  }

  lemma Rest1()
    ensures Halved(0xEDB883, 8) == 0xEDB8
  {
  }

  lemma Rest2()
    ensures Halved(0xEDB8, 8) == 0xED
  {
  }

  lemma PolynomialBits()
    ensures POLYNOMIAL == BYTE_0 + (BYTE_1 + (BYTE_2 + BYTE_3))
  {
    hide Bits, Halved;
    Byte0();
    Byte1();
    Byte2();
    Byte3();
    Rest0();
    Rest1();
    Rest2();
    BitsSplit(0xEDB88320, 8, 24);
    BitsSplit(0xEDB883, 8, 16);
    BitsSplit(0xEDB8, 8, 8);
  }

  // ---------------------------------------------------------------- the machine's word

  function Twice(m: bv32): bv32 {
    m << 1
  }

  function One(b: bool): bv32 {
    if b then 1 else 0
  }

  function Sum(x: bv32, y: bv32): bv32 {
    x ^ y
  }

  function PushBit(m: bv32, b: bool): bv32 {
    Sum(Twice(m), One(b))
  }

  /** The bits as a machine word, lowest first. */
  function Machine(bits: seq<bool>): bv32 {
    if bits == [] then 0 else PushBit(Machine(bits[1..]), bits[0])
  }

  /** `(crc >> 1) ^ (0xEDB88320u & (0u - (crc & 1u)))` */
  function MachineStep(c: bv32): bv32 {
    if LowBit(c) then Sum(Halve(c), 0xEDB8_8320) else Halve(c)
  }

  function MachineSteps(n: nat, c: bv32): bv32
    decreases n
  {
    if n == 0 then c else MachineSteps(n - 1, MachineStep(c))
  }

  lemma {:induction false} MachineXor(a: seq<bool>, b: seq<bool>)
    requires |a| == |b|
    ensures Machine(XorBits(a, b)) == Sum(Machine(a), Machine(b))
  {
    hide PushBit, Sum;
    if a != [] {
      MachineXor(a[1..], b[1..]);
      assert XorBits(a, b)[1..] == XorBits(a[1..], b[1..]);
      PushedXor(Machine(a[1..]), Machine(b[1..]), a[0], b[0]);
    } else {
      NoneXor();
    }
  }

  lemma NoneXor()
    ensures Sum(0, 0) == 0
  {
  }

  lemma PushedXor(x: bv32, y: bv32, a: bool, b: bool)
    ensures PushBit(Sum(x, y), a != b) == Sum(PushBit(x, a), PushBit(y, b))
  {
    hide Twice, One, Sum;
    TwiceSum(x, y);
    OneSum(a, b);
    SumFour(Twice(x), Twice(y), One(a), One(b));
  }

  lemma TwiceSum(x: bv32, y: bv32)
    ensures Twice(Sum(x, y)) == Sum(Twice(x), Twice(y))
  {
  }

  lemma OneSum(a: bool, b: bool)
    ensures One(a != b) == Sum(One(a), One(b))
  {
  }

  lemma SumFour(p: bv32, q: bv32, a: bv32, b: bv32)
    ensures Sum(Sum(p, q), Sum(a, b)) == Sum(Sum(p, a), Sum(q, b))
  {
    hide Sum;
    SumGroups(p, q, Sum(a, b));
    SumGroups(q, a, b);
    SumCommutes(q, a);
    SumGroups(a, q, b);
    SumGroups(p, a, Sum(q, b));
  }

  lemma SumGroups(x: bv32, y: bv32, z: bv32)
    ensures Sum(Sum(x, y), z) == Sum(x, Sum(y, z))
  {
  }

  lemma SumCommutes(x: bv32, y: bv32)
    ensures Sum(x, y) == Sum(y, x)
  {
  }

  /** The n highest bits are clear. */
  ghost predicate TopClear(m: bv32, n: nat)
    decreases n
  {
    n == 0 || (m & 0x8000_0000 == 0 && TopClear(Twice(m), n - 1))
  }

  lemma {:induction false} TopClearXor(x: bv32, y: bv32, n: nat)
    requires TopClear(x, n) && TopClear(y, n)
    ensures TopClear(Sum(x, y), n)
    decreases n
  {
    if n > 0 {
      assert (x ^ y) & 0x8000_0000 == 0;
      TwiceSum(x, y);
      hide Twice, Sum;
      TopClearXor(Twice(x), Twice(y), n - 1);
    }
  }

  lemma {:induction false} TopClearLess(x: bv32, more: nat, n: nat)
    requires TopClear(x, more) && n <= more
    ensures TopClear(x, n)
    decreases n
  {
    if n > 0 {
      TopClearLess(Twice(x), more - 1, n - 1);
    }
  }

  lemma {:induction false} TopClearZero(n: nat)
    ensures TopClear(0, n)
  {
    if n > 0 {
      assert Twice(0) == 0;
      TopClearZero(n - 1);
    }
  }

  lemma LowBitIsLow()
    ensures TopClear(1, 31)
  {
    assert TopClear(0x8000_0000, 0);
    assert TopClear(0x0100_0000, 7);
    assert TopClear(0x0001_0000, 15);
    assert TopClear(0x0000_0100, 23);
  }

  lemma PushedTopClear(m: bv32, b: bool, n: nat)
    requires n <= 31 && TopClear(m, n + 1)
    ensures TopClear(PushBit(m, b), n)
  {
    assert TopClear(Twice(m), n);
    assert TopClear(One(b), n) by {
      LowBitIsLow();
      TopClearLess(1, 31, n);
      TopClearZero(n);
    }
    hide TopClear, Twice, One, Sum;
    TopClearXor(Twice(m), One(b), n);
  }

  lemma {:induction false} MachineTopClear(bits: seq<bool>)
    requires |bits| <= 32
    ensures TopClear(Machine(bits), 32 - |bits|)
  {
    hide PushBit, TopClear;
    if bits == [] {
      TopClearZero(32);
    } else {
      MachineTopClear(bits[1..]);
      PushedTopClear(Machine(bits[1..]), bits[0], 32 - |bits|);
    }
  }

  function LowBit(m: bv32): bool {
    m & 1 == 1
  }

  function Halve(m: bv32): bv32 {
    m >> 1
  }

  lemma HalvePushed(m: bv32, b: bool, n: nat)
    requires n > 0 && TopClear(m, n)
    ensures Halve(PushBit(m, b)) == m && LowBit(PushBit(m, b)) == b
  {
  }

  lemma MachineHalf(w: seq<bool>)
    requires 0 < |w| <= 32
    ensures Halve(Machine(w)) == Machine(w[1..]) && LowBit(Machine(w)) == w[0]
  {
    hide PushBit, TopClear, Halve, LowBit;
    MachineTopClear(w[1..]);
    HalvePushed(Machine(w[1..]), w[0], 33 - |w|);
  }

  lemma PushZero()
    ensures PushBit(0, false) == 0
  {
  }

  lemma {:induction false} TrailingZero(bits: seq<bool>)
    ensures Machine(bits + [false]) == Machine(bits)
  {
    hide PushBit;
    if bits == [] {
      assert [false][1..] == [] && bits + [false] == [false];
      PushZero();
    } else {
      assert (bits + [false])[1..] == bits[1..] + [false];
      TrailingZero(bits[1..]);
    }
  }

  lemma Pushed(b: bool, rest: seq<bool>)
    ensures Machine([b] + rest) == PushBit(Machine(rest), b)
  {
    assert ([b] + rest)[1..] == rest;
  }

  /** Four bits pushed below the others. */
  function PushFour(m: bv32, a: bool, b: bool, c: bool, d: bool): bv32 {
    PushBit(PushBit(PushBit(PushBit(m, d), c), b), a)
  }

  lemma PushedFour(a: bool, b: bool, c: bool, d: bool, rest: seq<bool>)
    ensures Machine([a, b, c, d] + rest) == PushFour(Machine(rest), a, b, c, d)
  {
    hide Machine, PushBit;
    assert [a, b, c, d] + rest == [a] + ([b] + ([c] + ([d] + rest)));
    Pushed(d, rest);
    Pushed(c, [d] + rest);
    Pushed(b, [c] + ([d] + rest));
    Pushed(a, [b] + ([c] + ([d] + rest)));
  }

  function PushEight(m: bv32, bits: seq<bool>): bv32
    requires |bits| == 8
  {
    PushFour(PushFour(m, bits[4], bits[5], bits[6], bits[7]), bits[0], bits[1], bits[2], bits[3])
  }

  lemma PushedByte(bits: seq<bool>, rest: seq<bool>)
    requires |bits| == 8
    ensures Machine(bits + rest) == PushEight(Machine(rest), bits)
  {
    hide Machine, PushFour;
    TwoFours(bits, rest);
    PushedFour(bits[4], bits[5], bits[6], bits[7], rest);
    PushedFour(bits[0], bits[1], bits[2], bits[3], [bits[4], bits[5], bits[6], bits[7]] + rest);
  }

  lemma TwoFours(bits: seq<bool>, rest: seq<bool>)
    requires |bits| == 8
    ensures bits + rest
         == [bits[0], bits[1], bits[2], bits[3]] + ([bits[4], bits[5], bits[6], bits[7]] + rest)
  {
    assert bits == [bits[0], bits[1], bits[2], bits[3]] + [bits[4], bits[5], bits[6], bits[7]];
  }

  lemma MachineBytes()
    ensures PushEight(0, BYTE_3) == 0xED && PushEight(0xED, BYTE_2) == 0xEDB8
    ensures PushEight(0xEDB8, BYTE_1) == 0xED_B883 && PushEight(0xED_B883, BYTE_0) == 0xEDB8_8320
  {
  }

  lemma MachinePolynomial()
    ensures Machine(POLYNOMIAL) == 0xEDB8_8320
  {
    hide Machine, POLYNOMIAL, PushEight;
    PolynomialBits();
    EmptyMachine();
    MachineBytes();
    assert BYTE_3 + [] == BYTE_3;
    PushedByte(BYTE_3, []);
    PushedByte(BYTE_2, BYTE_3);
    PushedByte(BYTE_1, BYTE_2 + BYTE_3);
    PushedByte(BYTE_0, BYTE_1 + (BYTE_2 + BYTE_3));
  }

  lemma EmptyMachine()
    ensures Machine([]) == 0
  {
  }

  /** A step of the bit-serial register is the machine's step. */
  lemma StepIsMachineStep(c: Word)
    ensures Machine(Step(c)) == MachineStep(Machine(c))
  {
    var half := c[1..] + [false];
    assert Step(c) == if c[0] then XorBits(half, POLYNOMIAL) else half by { StepParts(c); }
    hide *;
    MachineHalf(c);
    TrailingZero(c[1..]);
    MachinePolynomial();
    MachineXor(half, POLYNOMIAL);
    SteppedMachine(Machine(c));
  }

  lemma StepParts(c: Word)
    ensures Step(c) == if c[0] then XorBits(c[1..] + [false], POLYNOMIAL) else c[1..] + [false]
  {
    assert ShiftRight(c, 1) == c[1..] + [false];
    hide POLYNOMIAL;
    assert Xor(POLYNOMIAL, c[1..] + [false]) == XorBits(c[1..] + [false], POLYNOMIAL);
  }

  lemma SteppedMachine(m: bv32)
    ensures MachineStep(m) == if LowBit(m) then Sum(Halve(m), 0xEDB8_8320) else Halve(m)
  {
  }

  lemma {:induction false} StepsAreMachineSteps(n: nat, c: Word)
    ensures Machine(Steps(n, c)) == MachineSteps(n, Machine(c))
    decreases n
  {
    if n > 0 {
      StepIsMachineStep(c);
      StepsAreMachineSteps(n - 1, Step(c));
    }
  }

  // ---------------------------------------------------------------- the check value

  lemma {:induction false} TrailingZeros(bits: seq<bool>, n: nat)
    ensures Machine(bits + Zeros(n)) == Machine(bits)
    decreases n
  {
    if n == 0 {
      assert bits + Zeros(0) == bits;
    } else {
      TrailingZeros(bits, n - 1);
      TrailingZero(bits + Zeros(n - 1));
      assert bits + Zeros(n) == bits + Zeros(n - 1) + [false];
    }
  }

  /** The n low bits of a number as a machine word. */
  function LowBits(v: nat, n: nat): bv32
    decreases n, v
  {
    if n == 0 then 0 else PushBit(LowBits(v / 2, n - 1), v % 2 == 1)
  }

  lemma {:induction false} MachineOfBits(v: nat, n: nat)
    ensures Machine(Bits(v, n)) == LowBits(v, n)
    decreases n
  {
    hide PushBit;
    if n > 0 {
      MachineOfBits(v / 2, n - 1);
      assert Bits(v, n)[1..] == Bits(v / 2, n - 1);
    }
  }

  /** The register after the bytes, on machine words. */
  function Feed(m: bv32, data: seq<Byte>): bv32
    decreases |data|
  {
    if data == [] then m else Feed(MachineSteps(8, Sum(m, LowBits(data[0], 8))), data[1..])
  }

  lemma FeedByte(c: Word, b: Byte)
    ensures Machine(Register(c, Bits(b, 8))) == MachineSteps(8, Sum(Machine(c), LowBits(b, 8)))
  {
    hide Machine, MachineSteps, LowBits, Bits, Sum, Steps, Register;
    RegisterIsSteps(c, Bits(b, 8));
    StepsAreMachineSteps(8, Xor(c, Pad(Bits(b, 8))));
    assert Xor(c, Pad(Bits(b, 8))) == XorBits(c, Pad(Bits(b, 8)));
    MachineXor(c, Pad(Bits(b, 8)));
    TrailingZeros(Bits(b, 8), 24);
    MachineOfBits(b, 8);
  }

  lemma {:induction false} FeedIsRegister(c: Word, data: seq<Byte>)
    ensures Machine(Register(c, MessageBits(data))) == Feed(Machine(c), data)
    decreases |data|
  {
    if data != [] {
      var d := Register(c, Bits(data[0], 8));
      FeedByte(c, data[0]);
      FeedIsRegister(d, data[1..]);
      RegisterConcat(c, Bits(data[0], 8), MessageBits(data[1..]));
    }
  }

  const ONES: seq<bool> := [true, true, true, true, true, true, true, true]

  lemma OnesPushed()
    ensures PushEight(0, ONES) == 0xFF && PushEight(0xFF, ONES) == 0xFFFF
    ensures PushEight(0xFFFF, ONES) == 0xFF_FFFF && PushEight(0xFF_FFFF, ONES) == 0xFFFF_FFFF
  {
  }

  lemma MachineOnes()
    ensures Machine(ALL_ONES) == 0xFFFF_FFFF
  {
    assert ALL_ONES == ONES + (ONES + (ONES + ONES)) && ONES + [] == ONES;
    hide Machine, PushEight, ALL_ONES;
    EmptyMachine();
    OnesPushed();
    PushedByte(ONES, []);
    PushedByte(ONES, ONES);
    PushedByte(ONES, ONES + ONES);
    PushedByte(ONES, ONES + (ONES + ONES));
  }

  /** The text "123456789". */
  const DIGITS: seq<Byte> := [0x31, 0x32, 0x33, 0x34, 0x35, 0x36, 0x37, 0x38, 0x39]

  lemma {:induction false} StepsAdd(m: nat, n: nat, c: bv32)
    ensures MachineSteps(m + n, c) == MachineSteps(n, MachineSteps(m, c))
    decreases m
  {
    if m > 0 {
      StepsAdd(m - 1, n, MachineStep(c));
    }
  }

  lemma Digit1()
    ensures MachineSteps(8, Sum(0xFFFFFFFF, LowBits(0x31, 8))) == 0x7C231048
  {
    assert LowBits(0x31, 8) == 0x31 && Sum(0xFFFFFFFF, 0x31) == 0xFFFFFFCE;
    hide LowBits, Sum;
    assert MachineSteps(4, 0xFFFFFFCE) == 0xAFF51D84;
    assert MachineSteps(4, 0xAFF51D84) == 0x7C231048;
    hide MachineSteps;
    StepsAdd(4, 4, 0xFFFFFFCE);
  }

  lemma Digit2()
    ensures MachineSteps(8, Sum(0x7C231048, LowBits(0x32, 8))) == 0xB0ACBB32
  {
    assert LowBits(0x32, 8) == 0x32 && Sum(0x7C231048, 0x32) == 0x7C23107A;
    hide LowBits, Sum;
    assert MachineSteps(4, 0x7C23107A) == 0xD11492EF;
    assert MachineSteps(4, 0xD11492EF) == 0xB0ACBB32;
    hide MachineSteps;
    StepsAdd(4, 4, 0x7C23107A);
  }

  lemma Digit3()
    ensures MachineSteps(8, Sum(0xB0ACBB32, LowBits(0x33, 8))) == 0x77B79C2D
  {
    assert LowBits(0x33, 8) == 0x33 && Sum(0xB0ACBB32, 0x33) == 0xB0ACBB01;
    hide LowBits, Sum;
    assert MachineSteps(4, 0xB0ACBB01) == 0x16BDDBD4;
    assert MachineSteps(4, 0x16BDDBD4) == 0x77B79C2D;
    hide MachineSteps;
    StepsAdd(4, 4, 0xB0ACBB01);
  }

  lemma Digit4()
    ensures MachineSteps(8, Sum(0x77B79C2D, LowBits(0x34, 8))) == 0x641C1F5C
  {
    assert LowBits(0x34, 8) == 0x34 && Sum(0x77B79C2D, 0x34) == 0x77B79C19;
    hide LowBits, Sum;
    assert MachineSteps(4, 0x77B79C19) == 0xF774EA85;
    assert MachineSteps(4, 0xF774EA85) == 0x641C1F5C;
    hide MachineSteps;
    StepsAdd(4, 4, 0x77B79C19);
  }

  lemma Digit5()
    ensures MachineSteps(8, Sum(0x641C1F5C, LowBits(0x35, 8))) == 0x340AC5E3
  {
    assert LowBits(0x35, 8) == 0x35 && Sum(0x641C1F5C, 0x35) == 0x641C1F69;
    hide LowBits, Sum;
    assert MachineSteps(4, 0x641C1F69) == 0xF64E52B2;
    assert MachineSteps(4, 0xF64E52B2) == 0x340AC5E3;
    hide MachineSteps;
    StepsAdd(4, 4, 0x641C1F69);
  }

  lemma Digit6()
    ensures MachineSteps(8, Sum(0x340AC5E3, LowBits(0x36, 8))) == 0xF68D2C9E
  {
    assert LowBits(0x36, 8) == 0x36 && Sum(0x340AC5E3, 0x36) == 0x340AC5D5;
    hide LowBits, Sum;
    assert MachineSteps(4, 0x340AC5D5) == 0x682BFDA9;
    assert MachineSteps(4, 0x682BFDA9) == 0xF68D2C9E;
    hide MachineSteps;
    StepsAdd(4, 4, 0x340AC5D5);
  }

  lemma Digit7()
    ensures MachineSteps(8, Sum(0xF68D2C9E, LowBits(0x37, 8))) == 0xAFFC9660
  {
    assert LowBits(0x37, 8) == 0x37 && Sum(0xF68D2C9E, 0x37) == 0xF68D2CA9;
    hide LowBits, Sum;
    assert MachineSteps(4, 0xF68D2CA9) == 0xFF67418E;
    assert MachineSteps(4, 0xFF67418E) == 0xAFFC9660;
    hide MachineSteps;
    StepsAdd(4, 4, 0xF68D2CA9);
  }

  lemma Digit8()
    ensures MachineSteps(8, Sum(0xAFFC9660, LowBits(0x38, 8))) == 0x651F2550
  {
    assert LowBits(0x38, 8) == 0x38 && Sum(0xAFFC9660, 0x38) == 0xAFFC9658;
    hide LowBits, Sum;
    assert MachineSteps(4, 0xAFFC9658) == 0xE7474A45;
    assert MachineSteps(4, 0xE7474A45) == 0x651F2550;
    hide MachineSteps;
    StepsAdd(4, 4, 0xAFFC9658);
  }

  lemma Digit9()
    ensures MachineSteps(8, Sum(0x651F2550, LowBits(0x39, 8))) == 0x340BC6D9
  {
    assert LowBits(0x39, 8) == 0x39 && Sum(0x651F2550, 0x39) == 0x651F2569;
    hide LowBits, Sum;
    assert MachineSteps(4, 0x651F2569) == 0xF65E6112;
    assert MachineSteps(4, 0xF65E6112) == 0x340BC6D9;
    hide MachineSteps;
    StepsAdd(4, 4, 0x651F2569);
  }

  lemma DigitsFed()
    ensures Feed(0xFFFF_FFFF, DIGITS) == 0x340BC6D9
  {
    hide MachineSteps, Sum, LowBits;
    Digit1();
    Digit2();
    Digit3();
    Digit4();
    Digit5();
    Digit6();
    Digit7();
    Digit8();
    Digit9();
    assert Feed(0xFFFFFFFF, DIGITS[0..]) == Feed(0x7C231048, DIGITS[1..]) by { assert DIGITS[0..][1..] == DIGITS[1..]; }
    assert Feed(0x7C231048, DIGITS[1..]) == Feed(0xB0ACBB32, DIGITS[2..]) by { assert DIGITS[1..][1..] == DIGITS[2..]; }
    assert Feed(0xB0ACBB32, DIGITS[2..]) == Feed(0x77B79C2D, DIGITS[3..]) by { assert DIGITS[2..][1..] == DIGITS[3..]; }
    assert Feed(0x77B79C2D, DIGITS[3..]) == Feed(0x641C1F5C, DIGITS[4..]) by { assert DIGITS[3..][1..] == DIGITS[4..]; }
    assert Feed(0x641C1F5C, DIGITS[4..]) == Feed(0x340AC5E3, DIGITS[5..]) by { assert DIGITS[4..][1..] == DIGITS[5..]; }
    assert Feed(0x340AC5E3, DIGITS[5..]) == Feed(0xF68D2C9E, DIGITS[6..]) by { assert DIGITS[5..][1..] == DIGITS[6..]; }
    assert Feed(0xF68D2C9E, DIGITS[6..]) == Feed(0xAFFC9660, DIGITS[7..]) by { assert DIGITS[6..][1..] == DIGITS[7..]; }
    assert Feed(0xAFFC9660, DIGITS[7..]) == Feed(0x651F2550, DIGITS[8..]) by { assert DIGITS[7..][1..] == DIGITS[8..]; }
    assert Feed(0x651F2550, DIGITS[8..]) == Feed(0x340BC6D9, DIGITS[9..]) by { assert DIGITS[8..][1..] == DIGITS[9..]; }
    assert DIGITS[0..] == DIGITS && DIGITS[9..] == [];
  }

  lemma {:induction false} MachineInjective(a: seq<bool>, b: seq<bool>)
    requires |a| == |b| <= 32 && Machine(a) == Machine(b)
    ensures a == b
  {
    if a != [] {
      hide Machine, Halve, LowBit;
      MachineHalf(a);
      MachineHalf(b);
      MachineInjective(a[1..], b[1..]);
      assert a == [a[0]] + a[1..] && b == [b[0]] + b[1..];
    }
  }

  lemma LowFour(v: nat, n: nat)
    ensures LowBits(v, n + 4)
         == PushFour(LowBits(v / 16, n), v % 2 == 1, v / 2 % 2 == 1, v / 4 % 2 == 1, v / 8 % 2 == 1)
  {
    hide PushBit;
    assert v / 2 / 2 == v / 4 && v / 4 / 2 == v / 8 && v / 8 / 2 == v / 16;
    assert LowBits(v, n + 4) == PushBit(LowBits(v / 2, n + 3), v % 2 == 1);
    assert LowBits(v / 2, n + 3) == PushBit(LowBits(v / 4, n + 2), v / 2 % 2 == 1);
    assert LowBits(v / 4, n + 2) == PushBit(LowBits(v / 8, n + 1), v / 4 % 2 == 1);
    assert LowBits(v / 8, n + 1) == PushBit(LowBits(v / 16, n), v / 8 % 2 == 1);
  }

  lemma CheckBits4()
    ensures LowBits(0xC, 4) == 0xC
  {
    assert LowBits(0, 0) == 0;
    hide LowBits;
    LowFour(0xC, 0);
  }

  lemma CheckBits8()
    ensures LowBits(0xCB, 8) == 0xCB
  {
    CheckBits4();
    hide LowBits;
    LowFour(0xCB, 4);
  }

  lemma CheckBits12()
    ensures LowBits(0xCBF, 12) == 0xCBF
  {
    CheckBits8();
    hide LowBits;
    LowFour(0xCBF, 8);
  }

  lemma CheckBits16()
    ensures LowBits(0xCBF4, 16) == 0xCBF4
  {
    CheckBits12();
    hide LowBits;
    LowFour(0xCBF4, 12);
  }

  lemma CheckBits20()
    ensures LowBits(0xCBF43, 20) == 0xCBF43
  {
    CheckBits16();
    hide LowBits;
    LowFour(0xCBF43, 16);
  }

  lemma CheckBits24()
    ensures LowBits(0xCBF439, 24) == 0xCBF439
  {
    CheckBits20();
    hide LowBits;
    LowFour(0xCBF439, 20);
  }

  lemma CheckBits28()
    ensures LowBits(0xCBF4392, 28) == 0xCBF4392
  {
    CheckBits24();
    hide LowBits;
    LowFour(0xCBF4392, 24);
  }

  lemma CheckBits()
    ensures LowBits(0xCBF43926, 32) == 0xCBF43926
  {
    CheckBits28();
    hide LowBits;
    LowFour(0xCBF43926, 28);
  }

  lemma CheckSum()
    ensures Sum(0x340BC6D9, 0xFFFF_FFFF) == 0xCBF4_3926
  {
  }

  // ---------------------------------------------------------------- two ones among zeros

  /** The polynomial x^31, whose bit is the next to leave the register. */
  const UNIT: Word := Pad([true])

  lemma {:induction false} ZerosFed(c: Word, n: nat)
    ensures Register(c, Zeros(n)) == Steps(n, c)
    decreases n
  {
    if n > 0 {
      hide Step;
      assert WithBit(c, false) == c && Zeros(n)[1..] == Zeros(n - 1);
      ZerosFed(Step(c), n - 1);
    }
  }

  lemma {:induction false} NothingSteps(n: nat)
    ensures Steps(n, Zeros(32)) == Zeros(32)
    decreases n
  {
    if n > 0 {
      assert Step(Zeros(32)) == Zeros(32);
      NothingSteps(n - 1);
    }
  }

  /** Two ones, d places apart, after i zeros and before k. */
  function TwoOnes(i: nat, d: nat, k: nat): seq<bool>
    requires d > 0
  {
    Zeros(i) + (([true] + Zeros(d - 1)) + ([true] + Zeros(k)))
  }

  lemma OneFed(c: Word, n: nat)
    ensures Register(c, [true] + Zeros(n)) == Steps(n + 1, WithBit(c, true))
  {
    assert ([true] + Zeros(n))[1..] == Zeros(n);
    ZerosFed(Step(WithBit(c, true)), n);
  }

  lemma StepsNonzero(n: nat, c: Word)
    ensures Steps(n, c) == Zeros(32) <==> c == Zeros(32)
  {
    NothingSteps(n);
    if Steps(n, c) == Zeros(32) {
      StepsInjective(n, c, Zeros(32));
    }
  }

  lemma TwoOnesVanishIff(i: nat, d: nat, k: nat)
    requires d > 0
    ensures Register(Zeros(32), TwoOnes(i, d, k)) == Zeros(32) <==> Steps(d, UNIT) == UNIT
  {
    var zero: Word := Zeros(32);
    assert WithBit(zero, true) == UNIT;
    hide Register, Steps, Step, Zeros;
    RegisterConcat(zero, Zeros(i), ([true] + Zeros(d - 1)) + ([true] + Zeros(k)));
    ZerosFed(zero, i);
    NothingSteps(i);
    RegisterConcat(zero, [true] + Zeros(d - 1), [true] + Zeros(k));
    OneFed(zero, d - 1);
    var w := Steps(d, UNIT);
    OneFed(w, k);
    StepsNonzero(k + 1, WithBit(w, true));
    FlippedUnit(w);
  }

  lemma FlippedUnit(w: Word)
    ensures WithBit(w, true) == Zeros(32) <==> w == UNIT
  {
    var v := WithBit(w, true);
    assert UNIT == [true] + Zeros(31) && v[0] == !w[0] && forall i :: 1 <= i < 32 ==> w[i] == v[i];
    if v == Zeros(32) {
      assert w[0] && forall i :: 1 <= i < 32 ==> !w[i];
    }
  }

  lemma MachineUnit()
    ensures Machine(UNIT) == 1
  {
    assert UNIT == [true] + Zeros(31);
    TrailingZeros([true], 31);
    assert [true][1..] == [];
    assert PushBit(0, true) == 1;
  }

  // ---------------------------------------------------------------- the first steps from 1

  /** None of the next n steps leads to 1. */
  predicate NoReturn(m: bv32, n: nat)
    decreases n
  {
    n == 0 || (MachineStep(m) != 1 && NoReturn(MachineStep(m), n - 1))
  }

  lemma {:induction false} NoReturnMeans(m: bv32, n: nat, d: nat)
    requires NoReturn(m, n) && 0 < d <= n
    ensures MachineSteps(d, m) != 1
    decreases d
  {
    hide MachineStep;
    if d > 1 {
      NoReturnMeans(MachineStep(m), n - 1, d - 1);
    } else {
      assert MachineSteps(1, m) == MachineSteps(0, MachineStep(m)) == MachineStep(m);
    }
  }

  lemma {:induction false} NoReturnAdds(m: bv32, a: nat, b: nat)
    requires NoReturn(m, a) && NoReturn(MachineSteps(a, m), b)
    ensures NoReturn(m, a + b)
    decreases a
  {
    hide MachineStep;
    if a > 0 {
      NoReturnAdds(MachineStep(m), a - 1, b);
    }
  }

  lemma NoReturn8()
    ensures NoReturn(0x1, 8) && MachineSteps(8, 0x1) == 0x77073096
  {
  }

  lemma NoReturn16()
    ensures NoReturn(0x77073096, 8) && MachineSteps(8, 0x77073096) == 0x191B3141
  {
  }

  lemma NoReturn24()
    ensures NoReturn(0x191B3141, 8) && MachineSteps(8, 0x191B3141) == 0x1C26A37
  {
  }

  lemma NoReturn32()
    ensures NoReturn(0x1C26A37, 8) && MachineSteps(8, 0x1C26A37) == 0xB8BC6765
  {
  }

  lemma NoReturn40()
    ensures NoReturn(0xB8BC6765, 8) && MachineSteps(8, 0xB8BC6765) == 0x3D6029B0
  {
  }

  lemma NoReturn48()
    ensures NoReturn(0x3D6029B0, 8) && MachineSteps(8, 0x3D6029B0) == 0xCB5CD3A5
  {
  }

  lemma NoReturn56()
    ensures NoReturn(0xCB5CD3A5, 8) && MachineSteps(8, 0xCB5CD3A5) == 0xA6770BB4
  {
  }

  lemma NoReturn64()
    ensures NoReturn(0xA6770BB4, 8) && MachineSteps(8, 0xA6770BB4) == 0xCCAA009E
  {
  }

  lemma NoShortPeriod()
    ensures NoReturn(1, 64)
  {
    hide NoReturn, MachineSteps;
    NoReturn8();
    NoReturn16();
    NoReturn24();
    NoReturn32();
    NoReturn40();
    NoReturn48();
    NoReturn56();
    NoReturn64();
    NoReturnAdds(0xCB5CD3A5, 8, 8);
    NoReturnAdds(0x3D6029B0, 8, 16);
    NoReturnAdds(0xB8BC6765, 8, 24);
    NoReturnAdds(0x1C26A37, 8, 32);
    NoReturnAdds(0x191B3141, 8, 40);
    NoReturnAdds(0x77073096, 8, 48);
    NoReturnAdds(0x1, 8, 56);
  }
}
