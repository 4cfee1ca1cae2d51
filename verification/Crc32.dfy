/**
 The CRC-32 that guards the index file, by table, against the bit-serial register of section 8 of
 RFC 1952 with polynomial 0xEDB88320. A 32-bit word is written as its bits, lowest first.
 */
module Crc32 {
  import opened Text

  // ---------------------------------------------------------------- bits and words

  type Word = w: seq<bool> | |w| == 32 witness [
      false, false, false, false, false, false, false, false,
      false, false, false, false, false, false, false, false,
      false, false, false, false, false, false, false, false,
      false, false, false, false, false, false, false, false]

  function Zeros(n: nat): (r: seq<bool>)
    ensures |r| == n && forall i :: 0 <= i < n ==> !r[i]
  {
    seq(n, i => false)
  }

  const ALL_ONES: Word :=
    [
      true, true, true, true, true, true, true, true,
      true, true, true, true, true, true, true, true,
      true, true, true, true, true, true, true, true,
      true, true, true, true, true, true, true, true]

  const POLYNOMIAL_VALUE: nat := 0xEDB8_8320

  const POLYNOMIAL: Word := Bits(POLYNOMIAL_VALUE, 32)

  function Xor(a: Word, b: Word): (r: Word)
    ensures forall i :: 0 <= i < 32 ==> r[i] == (a[i] != b[i])
  {
    seq(32, i requires 0 <= i < 32 => a[i] != b[i])
  }

  /** `w >> n` */
  function ShiftRight(w: Word, n: nat): (r: Word)
    requires n <= 32
  {
    w[n..] + Zeros(n)
  }

  /** The n low bits of v, lowest first. */
  function Bits(v: nat, n: nat): (r: seq<bool>)
    ensures |r| == n
    decreases n, v
  {
    if n == 0 then [] else [v % 2 == 1] + Bits(v / 2, n - 1)
  }

  function Value(bits: seq<bool>): nat {
    if bits == [] then 0 else Bit(bits[0]) + 2 * Value(bits[1..])
  }

  function PowerOf2(n: nat): nat {
    if n == 0 then 1 else 2 * PowerOf2(n - 1)
  }

  lemma {:induction false} BitsValue(bits: seq<bool>)
    ensures Bits(Value(bits), |bits|) == bits
  {
    if bits != [] {
      BitsValue(bits[1..]);
      assert Value(bits) / 2 == Value(bits[1..]);
    }
  }

  lemma {:induction false} ValueBits(v: nat, n: nat)
    requires v < PowerOf2(n)
    ensures Value(Bits(v, n)) == v
    decreases n
  {
    if n > 0 {
      ValueBits(v / 2, n - 1);
      assert Bits(v, n)[1..] == Bits(v / 2, n - 1);
    }
  }

  lemma {:induction false} ValueBelow(bits: seq<bool>)
    ensures Value(bits) < PowerOf2(|bits|)
  {
    if bits != [] {
      ValueBelow(bits[1..]);
    }
  }

  lemma Powers()
    ensures PowerOf2(8) == 0x100 && PowerOf2(32) == 0x1_0000_0000
  {
    assert PowerOf2(4) == 0x10;
    assert PowerOf2(12) == 0x1000;
    assert PowerOf2(16) == 0x1_0000;
    assert PowerOf2(20) == 0x10_0000;
    assert PowerOf2(24) == 0x100_0000;
    assert PowerOf2(28) == 0x1000_0000;
  }

  /** A word as an unsigned integer. */
  function ToU32(w: Word): U32 {
    ValueBelow(w);
    Powers();
    Value(w)
  }

  lemma ToU32Injective(v: Word, w: Word)
    requires ToU32(v) == ToU32(w)
    ensures v == w
  {
    BitsValue(v);
    BitsValue(w);
  }

  function Bit(b: bool): nat {
    if b then 1 else 0
  }

  lemma {:induction false} TopBit(v: nat, n: nat)
    requires n > 0 && PowerOf2(n - 1) <= v < PowerOf2(n)
    ensures Bits(v, n)[n - 1]
    decreases n
  {
    if n > 1 {
      TopBit(v / 2, n - 1);
    }
  }

  lemma PolynomialTopBit()
    ensures POLYNOMIAL[31]
  {
    Powers();
    assert PowerOf2(32) == 2 * PowerOf2(31);
    TopBit(POLYNOMIAL_VALUE, 32);
  }

  /** A byte widened to 32 bits. */
  function Widen(b: Byte): Word {
    Bits(b, 8) + Zeros(24)
  }

  /** `w & 0xFF`, used as a table index. */
  function LowByte(w: Word): Byte {
    ValueBelow(w[..8]);
    Powers();
    Value(w[..8])
  }

  // ---------------------------------------------------------------- the bit-serial register

  function Step(c: Word): Word {
    if c[0] then Xor(POLYNOMIAL, ShiftRight(c, 1)) else ShiftRight(c, 1)
  }

  function Steps(n: nat, c: Word): Word
    decreases n, c
  {
    if n == 0 then c else Steps(n - 1, Step(c))
  }

  function WithBit(c: Word, bit: bool): Word {
    c[0 := c[0] != bit]
  }

  function Register(c: Word, bits: seq<bool>): Word
    decreases |bits|
  {
    if bits == [] then c else Register(Step(WithBit(c, bits[0])), bits[1..])
  }

  function MessageBits(data: seq<Byte>): (r: seq<bool>)
    ensures |r| == 8 * |data|
  {
    if data == [] then [] else Bits(data[0], 8) + MessageBits(data[1..])
  }

  /** The CRC of a payload, one message bit at a time. */
  function Crc(data: seq<Byte>): Word {
    Xor(Register(ALL_ONES, MessageBits(data)), ALL_ONES)
  }

  lemma StepLinear(a: Word, b: Word)
    ensures Step(Xor(a, b)) == Xor(Step(a), Step(b))
  {
    assert forall i :: 0 <= i < 32 ==> Step(Xor(a, b))[i] == Xor(Step(a), Step(b))[i];
  }

  /** The dropped bit can be read off the top of the result, so a step loses nothing. */
  lemma StepInjective(a: Word, b: Word)
    requires Step(a) == Step(b)
    ensures a == b
  {
    PolynomialTopBit();
    assert Step(a)[31] == a[0] && Step(b)[31] == b[0];
    forall i | 1 <= i < 32 ensures a[i] == b[i] {
      assert Step(a)[i - 1] == ((a[0] && POLYNOMIAL[i - 1]) != a[i]);
      assert Step(b)[i - 1] == ((b[0] && POLYNOMIAL[i - 1]) != b[i]);
    }
  }

  lemma {:induction false} StepsLinear(n: nat, a: Word, b: Word)
    ensures Steps(n, Xor(a, b)) == Xor(Steps(n, a), Steps(n, b))
    decreases n
  {
    if n > 0 {
      StepLinear(a, b);
      StepsLinear(n - 1, Step(a), Step(b));
    }
  }

  lemma {:induction false} StepsInjective(n: nat, a: Word, b: Word)
    requires Steps(n, a) == Steps(n, b)
    ensures a == b
    decreases n
  {
    if n > 0 {
      StepsInjective(n - 1, Step(a), Step(b));
      StepInjective(a, b);
    }
  }

  function Pad(bits: seq<bool>): Word
    requires |bits| <= 32
  {
    bits + Zeros(32 - |bits|)
  }

  lemma StepAbsorbs(c: Word, w: Word)
    ensures Step(Xor(c, w)) == Xor(Step(WithBit(c, w[0])), ShiftRight(w, 1))
  {
    var l, r := Step(Xor(c, w)), Xor(Step(WithBit(c, w[0])), ShiftRight(w, 1));
    assert forall i :: 0 <= i < 32 ==> l[i] == r[i];
  }

  /** Feeding bits one at a time is the same as adding them as a word and then stepping. */
  lemma {:induction false} RegisterIsSteps(c: Word, bits: seq<bool>)
    requires |bits| <= 32
    ensures Register(c, bits) == Steps(|bits|, Xor(c, Pad(bits)))
    decreases |bits|
  {
    if bits == [] {
      assert Xor(c, Pad(bits)) == c;
    } else {
      StepAbsorbs(c, Pad(bits));
      assert ShiftRight(Pad(bits), 1) == Pad(bits[1..]);
      RegisterIsSteps(Step(WithBit(c, bits[0])), bits[1..]);
    }
  }

  lemma {:induction false} RegisterConcat(c: Word, a: seq<bool>, b: seq<bool>)
    ensures Register(c, a + b) == Register(Register(c, a), b)
    decreases |a|
  {
    if a == [] {
      assert a + b == b;
    } else {
      assert (a + b)[1..] == a[1..] + b;
      RegisterConcat(Step(WithBit(c, a[0])), a[1..], b);
    }
  }

  lemma {:induction false} RegisterInjective(c: Word, d: Word, bits: seq<bool>)
    requires Register(c, bits) == Register(d, bits)
    ensures c == d
    decreases |bits|
  {
    if bits != [] {
      var e, f := WithBit(c, bits[0]), WithBit(d, bits[0]);
      RegisterInjective(Step(e), Step(f), bits[1..]);
      StepInjective(e, f);
      assert c[0] == (e[0] != bits[0]) && d[0] == (f[0] != bits[0]);
      assert forall i :: 1 <= i < 32 ==> c[i] == e[i] && d[i] == f[i];
    }
  }

  // ---------------------------------------------------------------- error detection

  function XorBits(a: seq<bool>, b: seq<bool>): (r: seq<bool>)
    requires |a| == |b|
    ensures |r| == |a|
  {
    seq(|a|, i requires 0 <= i < |a| => a[i] != b[i])
  }

  /** The register is linear over exclusive-or. */
  lemma {:induction false} RegisterLinear(c: Word, d: Word, a: seq<bool>, b: seq<bool>)
    requires |a| == |b|
    ensures Xor(Register(c, a), Register(d, b)) == Register(Xor(c, d), XorBits(a, b))
    decreases |a|
  {
    if a != [] {
      var e, f := WithBit(c, a[0]), WithBit(d, b[0]);
      assert Xor(e, f) == WithBit(Xor(c, d), a[0] != b[0]);
      StepLinear(e, f);
      RegisterLinear(Step(e), Step(f), a[1..], b[1..]);
      assert XorBits(a, b)[1..] == XorBits(a[1..], b[1..]);
    }
  }

  lemma XorCancels(c: Word, v: Word, w: Word)
    ensures Xor(v, c) == Xor(w, c) <==> v == w
    ensures Xor(c, v) == Xor(c, w) <==> v == w
    ensures Xor(v, w) == Zeros(32) <==> v == w
  {
    if Xor(v, c) == Xor(w, c) {
      assert forall i :: 0 <= i < 32 ==> v[i] == (Xor(v, c)[i] != c[i]) && w[i] == (Xor(w, c)[i] != c[i]);
    }
    if Xor(c, v) == Xor(c, w) {
      assert forall i :: 0 <= i < 32 ==> v[i] == (Xor(c, v)[i] != c[i]) && w[i] == (Xor(c, w)[i] != c[i]);
    }
    if Xor(v, w) == Zeros(32) {
      assert forall i :: 0 <= i < 32 ==> !Xor(v, w)[i];
    }
  }

  /** The CRCs of two payloads of one length differ by what the zero register makes of their difference. */
  lemma CrcDifference(x: seq<Byte>, y: seq<Byte>)
    requires |x| == |y|
    ensures Xor(Crc(x), Crc(y)) == Register(Zeros(32), XorBits(MessageBits(x), MessageBits(y)))
  {
    hide MessageBits, Register, XorBits;
    var a, b := MessageBits(x), MessageBits(y);
    RegisterLinear(ALL_ONES, ALL_ONES, a, b);
    XorSame(ALL_ONES);
    XorBoth(Register(ALL_ONES, a), Register(ALL_ONES, b), ALL_ONES);
  }

  lemma XorSame(c: Word)
    ensures Xor(c, c) == Zeros(32)
  {
  }

  lemma XorBoth(v: Word, w: Word, c: Word)
    ensures Xor(Xor(v, c), Xor(w, c)) == Xor(v, w)
  {
  }

  /** A change of a payload goes unnoticed exactly when its bits leave a zero register at zero. */
  lemma UndetectedIffRegisterZero(x: seq<Byte>, y: seq<Byte>)
    requires |x| == |y|
    ensures Crc(x) == Crc(y) <==>
            Register(Zeros(32), XorBits(MessageBits(x), MessageBits(y))) == Zeros(32)
  {
    CrcDifference(x, y);
    XorCancels(ALL_ONES, Crc(x), Crc(y));
  }

  /** From one state, different windows of at most 32 bits lead to different states. */
  lemma WindowInjective(c: Word, a: seq<bool>, b: seq<bool>)
    requires |a| == |b| <= 32 && Register(c, a) == Register(c, b)
    ensures a == b
  {
    RegisterIsSteps(c, a);
    RegisterIsSteps(c, b);
    StepsInjective(|a|, Xor(c, Pad(a)), Xor(c, Pad(b)));
    XorCancels(c, Pad(a), Pad(b));
    assert a == Pad(a)[..|a|] && b == Pad(b)[..|b|];
  }

  /** Every error burst of at most 32 bits, at any bit position, changes the register. */
  lemma BurstChangesRegister(c: Word, a: seq<bool>, b: seq<bool>, lo: nat, hi: nat)
    requires |a| == |b| && lo <= hi <= |a| && hi - lo <= 32 && a != b
    requires forall i :: 0 <= i < |a| && !(lo <= i < hi) ==> a[i] == b[i]
    ensures Register(c, a) != Register(c, b)
  {
    assert a[..lo] == b[..lo] && a[hi..] == b[hi..];
    assert a == a[..lo] + (a[lo..hi] + a[hi..]) && b == b[..lo] + (b[lo..hi] + b[hi..]);
    RegisterConcat(c, a[..lo], a[lo..hi] + a[hi..]);
    RegisterConcat(c, b[..lo], b[lo..hi] + b[hi..]);
    var d := Register(c, a[..lo]);
    RegisterConcat(d, a[lo..hi], a[hi..]);
    RegisterConcat(d, b[lo..hi], b[hi..]);
    if Register(c, a) == Register(c, b) {
      RegisterInjective(Register(d, a[lo..hi]), Register(d, b[lo..hi]), a[hi..]);
      WindowInjective(d, a[lo..hi], b[lo..hi]);
    }
  }

  lemma {:induction false} MessageBitsAt(data: seq<Byte>, i: nat, k: nat)
    requires i < |data| && k < 8
    ensures MessageBits(data)[8 * i + k] == Bits(data[i], 8)[k]
  {
    if i > 0 {
      MessageBitsAt(data[1..], i - 1, k);
    }
  }

  lemma {:induction false} MessageBitsInjective(x: seq<Byte>, y: seq<Byte>)
    requires |x| == |y| && x != y
    ensures MessageBits(x) != MessageBits(y)
  {
    assert MessageBits(x)[..8] == Bits(x[0], 8) && MessageBits(y)[..8] == Bits(y[0], 8);
    assert MessageBits(x)[8..] == MessageBits(x[1..]) && MessageBits(y)[8..] == MessageBits(y[1..]);
    if x[0] == y[0] {
      assert x[1..] != y[1..] by { assert x == [x[0]] + x[1..] && y == [y[0]] + y[1..]; }
      MessageBitsInjective(x[1..], y[1..]);
    } else {
      Powers();
      ValueBits(x[0], 8);
      ValueBits(y[0], 8);
    }
  }

  /** Two payloads whose bits differ only inside one window of 32 bits have different CRCs. */
  lemma BitBurstDetected(x: seq<Byte>, y: seq<Byte>, lo: nat, hi: nat)
    requires |x| == |y| && x != y && lo <= hi <= 8 * |x| && hi - lo <= 32
    requires forall i :: 0 <= i < 8 * |x| && !(lo <= i < hi) ==> MessageBits(x)[i] == MessageBits(y)[i]
    ensures Crc(x) != Crc(y)
  {
    MessageBitsInjective(x, y);
    BurstChangesRegister(ALL_ONES, MessageBits(x), MessageBits(y), lo, hi);
    XorCancels(ALL_ONES, Register(ALL_ONES, MessageBits(x)), Register(ALL_ONES, MessageBits(y)));
  }

  /** Two payloads that differ only inside one window of four bytes have different CRCs. */
  lemma FourByteBurstDetected(x: seq<Byte>, y: seq<Byte>, lo: nat)
    requires |x| == |y| && x != y
    requires forall i :: 0 <= i < |x| && !(lo <= i < lo + 4) ==> x[i] == y[i]
    ensures Crc(x) != Crc(y)
  {
    assert lo < |x|;
    var hi := Min(lo + 4, |x|);
    forall i | 0 <= i < 8 * |x| && !(8 * lo <= i < 8 * hi) ensures MessageBits(x)[i] == MessageBits(y)[i] {
      assert i == 8 * (i / 8) + i % 8;
      MessageBitsAt(x, i / 8, i % 8);
      MessageBitsAt(y, i / 8, i % 8);
    }
    BitBurstDetected(x, y, 8 * lo, 8 * hi);
  }

  // ---------------------------------------------------------------- the table

  function TableEntry(i: Byte): Word {
    Steps(8, Widen(i))
  }

  lemma WidenLowByte(w: Word)
    ensures Widen(LowByte(w)) == w[..8] + Zeros(24)
  {
    BitsValue(w[..8]);
  }

  /** Stepping over zero bits only shifts. */
  lemma {:induction false} StepsOverZeros(n: nat, y: Word)
    requires n <= 32 && forall i :: 0 <= i < n ==> !y[i]
    ensures Steps(n, y) == ShiftRight(y, n)
    decreases n
  {
    if n == 0 {
      assert ShiftRight(y, 0) == y;
    } else {
      StepsOverZeros(n - 1, Step(y));
      assert ShiftRight(ShiftRight(y, 1), n - 1) == ShiftRight(y, n);
    }
  }

  /** The table holds the effect of the low byte; the high bytes only move down. */
  lemma EightSteps(x: Word)
    ensures Steps(8, x) == Xor(TableEntry(LowByte(x)), ShiftRight(x, 8))
  {
    var low, high := x[..8] + Zeros(24), Zeros(8) + x[8..];
    WidenLowByte(x);
    assert x == Xor(low, high);
    StepsLinear(8, low, high);
    StepsOverZeros(8, high);
    assert ShiftRight(high, 8) == ShiftRight(x, 8);
  }

  /** One table look-up does the work of eight register steps. */
  lemma LookupIsEightSteps(crc: Word, b: Byte)
    ensures Xor(TableEntry(LowByte(Xor(crc, Widen(b)))), ShiftRight(crc, 8)) == Register(crc, Bits(b, 8))
  {
    var x := Xor(crc, Widen(b));
    RegisterIsSteps(crc, Bits(b, 8));
    EightSteps(x);
    assert ShiftRight(x, 8) == ShiftRight(crc, 8);
  }

  lemma {:induction false} MessageBitsLast(data: seq<Byte>, i: nat)
    requires i < |data|
    ensures MessageBits(data[..i + 1]) == MessageBits(data[..i]) + Bits(data[i], 8)
  {
    if i == 0 {
      assert data[..1][1..] == [];
    } else {
      MessageBitsLast(data[1..], i - 1);
      assert data[1..][..i] == data[..i + 1][1..] && data[1..][..i - 1] == data[..i][1..];
    }
  }

  /** The inner loop that fills the table. */
  method EightRounds(start: Word) returns (c: Word)
    ensures c == Steps(8, start)
  {
    c := start;
    for j := 0 to 8
      invariant Steps(8 - j, c) == Steps(8, start)
    {
      c := Step(c);
    }
  }

  /** The function-local table, filled on first use. */
  class CrcTable {
    const table: array<Word>
    var initialized: bool

    ghost predicate Valid()
      reads this, table
    {
      table.Length == 256 && (initialized ==> forall i: Byte :: table[i] == TableEntry(i))
    }

    constructor ()
      ensures Valid() && fresh(table) && !initialized
    {
      table := new Word[256];
      initialized := false;
    }

    method Fill()
      requires Valid()
      modifies this, table
      ensures Valid() && initialized
    {
      if !initialized {
        for i := 0 to 256
          invariant table.Length == 256 && !initialized
          invariant forall k: Byte :: k < i ==> table[k] == TableEntry(k)
        {
          var c := EightRounds(Widen(i));
          table[i] := c;
        }
        initialized := true;
      }
    }

    method Crc32(data: seq<Byte>) returns (r: Word)
      requires Valid()
      modifies this, table
      ensures Valid() && r == Crc(data)
    {
      Fill();
      var crc := ALL_ONES;
      for i := 0 to |data|
        invariant Valid() && initialized
        invariant crc == Register(ALL_ONES, MessageBits(data[..i]))
      {
        LookupIsEightSteps(crc, data[i]);
        MessageBitsLast(data, i);
        RegisterConcat(ALL_ONES, MessageBits(data[..i]), Bits(data[i], 8));
        crc := Xor(table[LowByte(Xor(crc, Widen(data[i])))], ShiftRight(crc, 8));
      }
      assert data[..|data|] == data;
      return Xor(crc, ALL_ONES);
    }
  }
}
