/**
 Which CRC it is: its generator, its check value, and that two flipped bits are caught unless their
 distance is a period of the generator, which none up to 64 is.
 */
module CrcLaws {
  import opened Text
  import opened Crc32
  import opened CrcMachines

  // ---------------------------------------------------------------- the generator

  /** The exponents of the generator below 32: x^32 + x^26 + x^23 + ... + x + 1. */
  const EXPONENTS: set<int> := {26, 23, 22, 16, 12, 11, 10, 8, 7, 5, 4, 2, 1, 0}

  /** The word as a polynomial, highest power first: the coefficient of x^e. */
  function Coefficient(c: Word, e: nat): bool
    requires e < 32
  {
    c[31 - e]
  }

  lemma PolynomialExponents()
    ensures forall e :: 0 <= e < 32 ==> (Coefficient(POLYNOMIAL, e) <==> e in EXPONENTS)
  {
    forall e | 0 <= e < 32 ensures Coefficient(POLYNOMIAL, e) <==> e in EXPONENTS {
      ExponentAt(e);
    }
  }

  lemma ExponentAt(e: nat)
    requires e < 32
    ensures POLYNOMIAL[31 - e] <==> e in EXPONENTS
  {
    var p := POLYNOMIAL;
    PolynomialBits();
    hide POLYNOMIAL;
    if e < 16 {
      assert e in {0, 1, 2, 3, 4, 5, 6, 7, 8, 9, 10, 11, 12, 13, 14, 15};
    } else {
      assert e in {16, 17, 18, 19, 20, 21, 22, 23, 24, 25, 26, 27, 28, 29, 30, 31};
    }
  }

  /** One step multiplies by x and reduces by the generator. */
  lemma StepIsTimesX(c: Word, e: nat)
    requires e < 32
    ensures Coefficient(Step(c), e) == ((e > 0 && Coefficient(c, e - 1)) != (Coefficient(c, 31) && e in EXPONENTS))
  {
    ExponentAt(e);
    hide POLYNOMIAL, EXPONENTS;
  }

  // ---------------------------------------------------------------- the check value

  /** The CRC of "123456789" is the check value of this CRC, 0xCBF43926. */
  lemma CheckValue()
    ensures ToU32(Crc(DIGITS)) == 0xCBF4_3926
  {
    var r, w := Register(ALL_ONES, MessageBits(DIGITS)), Bits(0xCBF4_3926, 32);
    assert Xor(r, ALL_ONES) == XorBits(r, ALL_ONES) == Crc(DIGITS);
    hide *;
    FeedIsRegister(ALL_ONES, DIGITS);
    MachineOnes();
    DigitsFed();
    MachineXor(r, ALL_ONES);
    CheckSum();
    MachineOfBits(0xCBF4_3926, 32);
    CheckBits();
    MachineInjective(Crc(DIGITS), w);
    CheckNumber();
  }

  lemma CheckNumber()
    ensures ToU32(Bits(0xCBF4_3926, 32)) == 0xCBF4_3926
  {
    Powers();
    ValueBits(0xCBF4_3926, 32);
    hide Bits, PowerOf2;
  }

  // ---------------------------------------------------------------- two flipped bits

  /** The messages differ at bits i and j and nowhere else. */
  ghost predicate FlippedTwice(a: seq<bool>, b: seq<bool>, i: nat, j: nat) {
    i < j < |a| == |b| && forall n :: 0 <= n < |a| ==> (a[n] != b[n] <==> n == i || n == j)
  }

  /**
   Two flipped bits go unnoticed if and only if their distance is a period of the generator: that
   many of the machine's steps lead from 1 back to 1.
   */
  lemma TwoFlipsUnnoticedIff(x: seq<Byte>, y: seq<Byte>, i: nat, j: nat)
    requires |x| == |y| && FlippedTwice(MessageBits(x), MessageBits(y), i, j)
    ensures Crc(x) == Crc(y) <==> MachineSteps(j - i, 1) == 1
  {
    var a, b := MessageBits(x), MessageBits(y);
    var k := |a| - j - 1;
    assert XorBits(a, b) == TwoOnes(i, j - i, k);
    hide *;
    UndetectedIffRegisterZero(x, y);
    TwoOnesVanishIff(i, j - i, k);
    StepsAreMachineSteps(j - i, UNIT);
    MachineUnit();
    if Machine(Steps(j - i, UNIT)) == Machine(UNIT) {
      MachineInjective(Steps(j - i, UNIT), UNIT);
    }
  }

  /** Two flipped bits at most 64 apart are always noticed. */
  lemma NearFlipsNoticed(x: seq<Byte>, y: seq<Byte>, i: nat, j: nat)
    requires |x| == |y| && FlippedTwice(MessageBits(x), MessageBits(y), i, j) && j - i <= 64
    ensures Crc(x) != Crc(y)
  {
    hide FlippedTwice, MessageBits, Crc, NoReturn, MachineSteps;
    assert i < j by { FlipsApart(MessageBits(x), MessageBits(y), i, j); }
    TwoFlipsUnnoticedIff(x, y, i, j);
    NoShortPeriod();
    NoReturnMeans(1, 64, j - i);
  }

  lemma FlipsApart(a: seq<bool>, b: seq<bool>, i: nat, j: nat)
    requires FlippedTwice(a, b, i, j)
    ensures i < j
  {
  }
}
