/** The CRC-32 of the serial link: the reflected polynomial of section 3.2.9 of IEEE 802.3, register
    preset to ones, without the final complement. Machine words are their bits, lowest first. */
module Crc {
  import opened Bytes

  type Bits = seq<bool>

  type Word = w: Bits | |w| == 32 witness seq(32, i => false)

  // ----- words and numbers -----

  /** Bit i of a number. */
  function Digit(n: nat, i: nat): bool {
    if i == 0 then n % 2 == 1 else Digit(n / 2, i - 1)
  }

  /** The bits of an unsigned number, lowest first, cut to a width. */
  function BitsOf(n: nat, width: nat): (r: Bits)
    ensures |r| == width
  {
    seq(width, i requires 0 <= i < width => Digit(n, i))
  }

  function NumberOf(bits: Bits): nat {
    if bits == [] then 0 else (if bits[0] then 1 else 0) + 2 * NumberOf(bits[1..])
  }

  function Pow2(n: nat): (p: nat)
    ensures p > 0
  {
    if n == 0 then 1 else 2 * Pow2(n - 1)
  }

  lemma {:induction false} DigitOfNumber(bits: Bits, i: nat)
    requires i < |bits|
    ensures Digit(NumberOf(bits), i) == bits[i]
  {
    assert NumberOf(bits) / 2 == NumberOf(bits[1..]);
    if i > 0 { DigitOfNumber(bits[1..], i - 1); }
  }

  lemma BitsOfNumber(bits: Bits)
    ensures BitsOf(NumberOf(bits), |bits|) == bits
  {
    forall i | 0 <= i < |bits| ensures BitsOf(NumberOf(bits), |bits|)[i] == bits[i] {
      DigitOfNumber(bits, i);
    }
  }

  lemma {:induction false} NumberOfBits(n: nat, width: nat)
    requires n < Pow2(width)
    ensures NumberOf(BitsOf(n, width)) == n
  {
    if width > 0 {
      NumberOfBits(n / 2, width - 1);
      assert BitsOf(n, width)[1..] == BitsOf(n / 2, width - 1);
    }
  }

  lemma {:induction false} NoHighDigits(n: nat, width: nat, i: nat)
    requires n < Pow2(width) && width <= i
    ensures !Digit(n, i)
    decreases i
  {
    if i > 0 {
      NoHighDigits(n / 2, if width > 0 then width - 1 else 0, i - 1);
    }
  }

  lemma {:induction false} LowDigits(n: nat, width: nat, p: nat, i: nat)
    requires i < width && p == Pow2(width)
    ensures Digit(n % p, i) == Digit(n, i)
  {
    HalveThenCut(n, Pow2(width - 1));
    if i > 0 { LowDigits(n / 2, width - 1, Pow2(width - 1), i - 1); }
  }

  lemma {:induction false} HighDigits(n: nat, width: nat, p: nat, q: nat, i: nat)
    requires p == Pow2(width) && q == n / p
    ensures Digit(n, i + width) == Digit(q, i)
    decreases width
  {
    if width > 0 {
      HalveThenCut(n, Pow2(width - 1));
      HighDigits(n / 2, width - 1, Pow2(width - 1), q, i);
    }
  }

  lemma HalveThenCut(n: nat, p: nat)
    requires p > 0
    ensures n % (2 * p) % 2 == n % 2
    ensures n % (2 * p) / 2 == n / 2 % p
    ensures n / (2 * p) == n / 2 / p
  {
    var q, r := n / 2 / p, n / 2 % p;
    var bit := n % 2;
    assert n == 2 * (q * p + r) + bit;
    assert n == q * (2 * p) + (2 * r + bit);
    QuotientIs(n, 2 * p, q, 2 * r + bit);
  }

  lemma QuotientIs(n: nat, d: nat, q: nat, r: nat)
    requires d > 0 && r < d
    requires n == q * d + r
    ensures n / d == q && n % d == r
  {
    var e := n / d - q;
    assert n == n / d * d + n % d;
    assert e * d == r - n % d;
    MultipleIsFar(e, d);
  }

  lemma MultipleIsFar(e: int, d: int)
    requires d > 0
    ensures e >= 1 ==> e * d >= d
    ensures e <= -1 ==> e * d <= -d
  {
  }

  function Zeros(n: nat): (r: Bits)
    ensures |r| == n
  {
    seq(n, i => false)
  }

  function Xor(a: Bits, b: Bits): (r: Bits)
    requires |a| == |b|
    ensures |r| == |a|
  {
    seq(|a|, i requires 0 <= i < |a| => a[i] != b[i])
  }

  function And(a: Word, b: Word): Word {
    seq(32, i requires 0 <= i < 32 => a[i] && b[i])
  }

  function ShiftRight(c: Word): Word {
    c[1..] + [false]
  }

  /** `-(crc & 1)`: all ones if the lowest bit is set, otherwise zero. */
  function NegatedLowBit(c: Word): Word {
    seq(32, i => c[0])
  }

  // ----- the register -----

  const POLYNOMIAL: Word := BitsOf(0xEDB88320, 32)

  const PRESET: Word := BitsOf(0xFFFFFFFF, 32)

  function BitStep(c: Word): Word {
    Xor(ShiftRight(c), And(POLYNOMIAL, NegatedLowBit(c)))
  }

  /** One step for each of the given bits. */
  function Steps(c: Word, bits: Bits): Word
    decreases |bits|
  {
    if bits == [] then c else Steps(BitStep(c), bits[1..])
  }

  function ByteBits(b: byte): Bits {
    BitsOf(b, 8)
  }

  /** A byte enters at the low end of the register and is shifted out, one step per bit. */
  function Register(c: Word, bytes: seq<byte>): Word
    decreases |bytes|
  {
    if bytes == [] then c else Register(Steps(Xor(c, BitsOf(bytes[0], 32)), ByteBits(bytes[0])), bytes[1..])
  }

  function Checksum(bytes: seq<byte>): nat {
    NumberOf(Register(PRESET, bytes))
  }

  method Crc32(buf: seq<byte>) returns (result: nat)
    ensures result == Checksum(buf)
    ensures result < 0x1_0000_0000 && IsRemainder(BitStream(buf), BitsOf(result, 32))
  {
    var i := 0;
    var crc: Word := PRESET;
    assert buf[0..] == buf;
    while i < |buf|
      invariant 0 <= i <= |buf|
      invariant Register(crc, buf[i..]) == Register(PRESET, buf)
    {
      assert buf[i..][1..] == buf[i + 1..];
      crc := ByteLoop(crc, buf[i]);
      i := i + 1;
    }
    result := NumberOf(crc);
    ChecksumIsTheRemainder(buf, BitsOf(result, 32));
  }

  /** The body of the outer loop: the byte is added in and eight rounds of the inner loop follow. */
  method ByteLoop(start: Word, b: byte) returns (crc: Word)
    ensures crc == Steps(Xor(start, BitsOf(b, 32)), ByteBits(b))
  {
    crc := Xor(start, BitsOf(b, 32));
    ghost var entered, bits := crc, ByteBits(b);
    var j := 7;
    while j >= 0
      invariant -1 <= j <= 7
      invariant Steps(crc, bits[7 - j..]) == Steps(entered, bits)
    {
      var msk := NegatedLowBit(crc);
      assert bits[7 - j..][1..] == bits[8 - j..];
      crc := Xor(ShiftRight(crc), And(POLYNOMIAL, msk));
      j := j - 1;
    }
  }

  // ----- the step is linear and injective -----

  lemma BitStepIsLinear(a: Word, b: Word)
    ensures BitStep(Xor(a, b)) == Xor(BitStep(a), BitStep(b))
  {
  }

  lemma PolynomialHasTopBit()
    ensures POLYNOMIAL[31]
  {
    PolynomialIsReflectedGenerator();
  }

  /** The top bit of the result is the bit shifted out, because the polynomial has its top bit set. */
  lemma BitStepIsInjective(a: Word, b: Word)
    requires BitStep(a) == BitStep(b)
    ensures a == b
  {
    PolynomialHasTopBit();
    BitStepBits(a);
    BitStepBits(b);
    assert BitStep(a)[31] == a[0] && BitStep(b)[31] == b[0];
    forall i | 0 < i < 32 ensures a[i] == b[i] {
      assert BitStep(a)[i - 1] == BitStep(b)[i - 1];
    }
  }

  lemma BitStepBits(c: Word)
    ensures BitStep(c)[31] == (POLYNOMIAL[31] && c[0])
    ensures forall i :: 0 <= i < 31 ==> BitStep(c)[i] == (c[i + 1] != (POLYNOMIAL[i] && c[0]))
  {
  }

  lemma {:induction false} StepsAreInjective(a: Word, b: Word, bits: Bits)
    requires Steps(a, bits) == Steps(b, bits)
    ensures a == b
    decreases |bits|
  {
    if bits != [] {
      StepsAreInjective(BitStep(a), BitStep(b), bits[1..]);
      BitStepIsInjective(a, b);
    }
  }

  lemma {:induction false} StepsOfZero(bits: Bits)
    ensures Steps(Zeros(32), bits) == Zeros(32)
    decreases |bits|
  {
    if bits != [] {
      BitStepOfZero();
      StepsOfZero(bits[1..]);
    }
  }

  lemma BitStepOfZero()
    ensures BitStep(Zeros(32)) == Zeros(32)
  {
    BitStepBits(Zeros(32));
  }

  // ----- the message as a bit stream -----

  /** The bits of a message in the order they enter the register. */
  function BitStream(bytes: seq<byte>): Bits {
    if bytes == [] then [] else ByteBits(bytes[0]) + BitStream(bytes[1..])
  }

  /** A word whose low bits are the given ones. */
  function Load(bits: Bits): Word
    requires |bits| <= 32
  {
    bits + Zeros(32 - |bits|)
  }

  /** The register fed bit by bit. */
  function Run(c: Word, bits: Bits): Word
    decreases |bits|
  {
    if bits == [] then c else Run(BitStep(Xor(c, Load(bits[..1]))), bits[1..])
  }

  /** The first bit of several acts now; the others wait one place lower. */
  lemma OneBitThenRest(c: Word, bits: Bits)
    requires 0 < |bits| <= 32
    ensures BitStep(Xor(c, Load(bits))) == Xor(BitStep(Xor(c, Load(bits[..1]))), Load(bits[1..]))
  {
    var rest := [false] + bits[1..];
    assert Load(bits) == Xor(Load(bits[..1]), Load(rest));
    assert Xor(c, Load(bits)) == Xor(Xor(c, Load(bits[..1])), Load(rest));
    BitStepIsLinear(Xor(c, Load(bits[..1])), Load(rest));
    assert BitStep(Load(rest)) == Load(bits[1..]);
  }

  /** Up to 32 bits fed one by one are the same as all of them entered at once and then shifted out. */
  lemma {:induction false} RunIsLoadThenSteps(c: Word, bits: Bits)
    requires |bits| <= 32
    ensures Run(c, bits) == Steps(Xor(c, Load(bits)), bits)
    decreases |bits|
  {
    if bits == [] {
      XorWithNothing(c);
    } else {
      var next := BitStep(Xor(c, Load(bits[..1])));
      RunIsLoadThenSteps(next, bits[1..]);
      assert Run(c, bits) == Run(next, bits[1..]);
      OneBitThenRest(c, bits);
      assert Steps(Xor(c, Load(bits)), bits) == Steps(Xor(next, Load(bits[1..])), bits[1..]);
    }
  }

  lemma XorWithNothing(c: Word)
    ensures Xor(c, Load([])) == c
  {
  }

  lemma {:induction false} RunAppends(c: Word, a: Bits, b: Bits)
    ensures Run(c, a + b) == Run(Run(c, a), b)
    decreases |a|
  {
    if a == [] {
      assert a + b == b;
    } else {
      assert (a + b)[1..] == a[1..] + b && (a + b)[..1] == a[..1];
      RunAppends(BitStep(Xor(c, Load(a[..1]))), a[1..], b);
    }
  }

  lemma {:induction false} RunIsInjective(c: Word, d: Word, bits: Bits)
    requires Run(c, bits) == Run(d, bits)
    ensures c == d
    decreases |bits|
  {
    if bits != [] {
      var x := Load(bits[..1]);
      RunIsInjective(BitStep(Xor(c, x)), BitStep(Xor(d, x)), bits[1..]);
      BitStepIsInjective(Xor(c, x), Xor(d, x));
      XorCancels(c, d, x);
    }
  }

  lemma XorCancels(c: Word, d: Word, x: Word)
    requires Xor(c, x) == Xor(d, x)
    ensures c == d
  {
    forall i | 0 <= i < 32 ensures c[i] == d[i] {
      assert Xor(c, x)[i] == Xor(d, x)[i];
    }
  }

  lemma XorCommutes(a: Word, b: Word)
    ensures Xor(a, b) == Xor(b, a)
  {
  }

  lemma LoadIsInjective(a: Bits, b: Bits)
    requires |a| == |b| <= 32
    requires Load(a) == Load(b)
    ensures a == b
  {
    assert Load(a)[..|a|] == a && Load(b)[..|b|] == b;
  }

  lemma WideByte(b: byte)
    ensures BitsOf(b, 32) == Load(ByteBits(b))
  {
    assert Pow2(8) == 256;
    forall i | 8 <= i < 32 ensures !Digit(b, i) {
      NoHighDigits(b, 8, i);
    }
  }

  /** The byte-wise register is the bit-wise one. */
  lemma {:induction false} RegisterIsRun(c: Word, bytes: seq<byte>)
    ensures Register(c, bytes) == Run(c, BitStream(bytes))
    decreases |bytes|
  {
    if bytes != [] {
      var bits := ByteBits(bytes[0]);
      WideByte(bytes[0]);
      RunIsLoadThenSteps(c, bits);
      RegisterIsRun(Run(c, bits), bytes[1..]);
      RunAppends(c, bits, BitStream(bytes[1..]));
    }
  }

  lemma SameNumberSameWord(a: Word, b: Word)
    requires NumberOf(a) == NumberOf(b)
    ensures a == b
  {
    BitsOfNumber(a);
    BitsOfNumber(b);
  }

  // ----- what the checksum detects -----

  /** Two messages whose bit streams differ only inside 32 consecutive bits, at any bit position, have
      different checksums. */
  lemma DetectsBursts(m: seq<byte>, n: seq<byte>, before: Bits, a: Bits, b: Bits, after: Bits)
    requires BitStream(m) == before + a + after
    requires BitStream(n) == before + b + after
    requires |a| == |b| <= 32 && a != b
    ensures Checksum(m) != Checksum(n)
  {
    RegisterIsRun(PRESET, m);
    RegisterIsRun(PRESET, n);
    RunThrough(before, a, after);
    RunThrough(before, b, after);
    var c := Run(PRESET, before);
    if Checksum(m) == Checksum(n) {
      SameNumberSameWord(Register(PRESET, m), Register(PRESET, n));
      RunIsInjective(Run(c, a), Run(c, b), after);
      ShortRunsDiffer(c, a, b);
    }
  }

  lemma ShortRunsDiffer(c: Word, a: Bits, b: Bits)
    requires |a| == |b| <= 32 && a != b
    ensures Run(c, a) != Run(c, b)
  {
    if Run(c, a) == Run(c, b) {
      RunIsLoadThenSteps(c, a);
      RunIsLoadThenSteps(c, b);
      StepsCount(Xor(c, Load(b)), a, b);
      StepsAreInjective(Xor(c, Load(a)), Xor(c, Load(b)), a);
      XorCommutes(c, Load(a));
      XorCommutes(c, Load(b));
      XorCancels(Load(a), Load(b), c);
      LoadIsInjective(a, b);
    }
  }

  lemma {:induction false} StepsCount(c: Word, a: Bits, b: Bits)
    requires |a| == |b|
    ensures Steps(c, a) == Steps(c, b)
    decreases |a|
  {
    if a != [] { StepsCount(BitStep(c), a[1..], b[1..]); }
  }

  lemma RunThrough(before: Bits, a: Bits, after: Bits)
    ensures Run(PRESET, before + a + after) == Run(Run(Run(PRESET, before), a), after)
  {
    RunAppends(PRESET, before + a, after);
    RunAppends(PRESET, before, a);
  }

  lemma {:induction false} BitStreamAppends(a: seq<byte>, b: seq<byte>)
    ensures BitStream(a + b) == BitStream(a) + BitStream(b)
  {
    if a == [] {
      assert a + b == b;
    } else {
      assert (a + b)[1..] == a[1..] + b;
      BitStreamAppends(a[1..], b);
    }
  }

  lemma {:induction false} BitStreamLength(a: seq<byte>)
    ensures |BitStream(a)| == 8 * |a|
  {
    if a != [] { BitStreamLength(a[1..]); }
  }

  lemma {:induction false} BitStreamIsInjective(a: seq<byte>, b: seq<byte>)
    requires |a| == |b|
    requires BitStream(a) == BitStream(b)
    ensures a == b
  {
    if a != [] {
      HeadOfStream(a);
      HeadOfStream(b);
      SameBitsSameByte(a[0], b[0]);
      BitStreamIsInjective(a[1..], b[1..]);
      assert a == [a[0]] + a[1..] && b == [b[0]] + b[1..];
    }
  }

  lemma HeadOfStream(a: seq<byte>)
    requires a != []
    ensures |BitStream(a)| >= 8
    ensures BitStream(a)[..8] == ByteBits(a[0]) && BitStream(a)[8..] == BitStream(a[1..])
  {
  }

  lemma SameBitsSameByte(p: byte, q: byte)
    requires ByteBits(p) == ByteBits(q)
    ensures p == q
  {
    assert Pow2(8) == 256;
    NumberOfBits(p, 8);
    NumberOfBits(q, 8);
  }

  /** Two different messages that agree outside four consecutive bytes have different checksums. */
  lemma DetectsFourBytes(before: seq<byte>, a: seq<byte>, b: seq<byte>, after: seq<byte>)
    requires |a| == |b| <= 4 && a != b
    ensures Checksum(before + a + after) != Checksum(before + b + after)
  {
    BitStreamAppends(before + a, after);
    BitStreamAppends(before, a);
    BitStreamAppends(before + b, after);
    BitStreamAppends(before, b);
    BitStreamLength(a);
    BitStreamLength(b);
    if BitStream(a) == BitStream(b) { BitStreamIsInjective(a, b); }
    DetectsBursts(before + a + after, before + b + after,
                  BitStream(before), BitStream(a), BitStream(b), BitStream(after));
  }

  /** A number in little-endian byte order. */
  function LittleEndian(n: nat, size: nat): (bytes: seq<byte>)
    ensures |bytes| == size
    decreases size
  {
    if size == 0 then [] else [n % 256] + LittleEndian(n / 256, size - 1)
  }

  lemma SplitLowByte(n: nat, more: nat)
    ensures BitsOf(n, 8 + more) == ByteBits(n % 256) + BitsOf(n / 256, more)
  {
    assert Pow2(8) == 256;
    forall i | 0 <= i < 8 ensures Digit(n % 256, i) == Digit(n, i) {
      LowDigits(n, 8, 256, i);
    }
    forall i | 8 <= i < 8 + more ensures Digit(n / 256, i - 8) == Digit(n, i) {
      HighDigits(n, 8, 256, n / 256, i - 8);
    }
  }

  lemma {:induction false} StreamOfLittleEndian(n: nat, size: nat)
    ensures BitStream(LittleEndian(n, size)) == BitsOf(n, 8 * size)
    decreases size
  {
    if size > 0 {
      SplitLowByte(n, 8 * (size - 1));
      assert LittleEndian(n, size)[1..] == LittleEndian(n / 256, size - 1);
      StreamOfLittleEndian(n / 256, size - 1);
    }
  }

  /** A register fed its own bits cancels itself out. */
  lemma RegisterCancels(r: Word)
    ensures Run(r, r) == Zeros(32)
  {
    RunIsLoadThenSteps(r, r);
    assert Xor(r, Load(r)) == Zeros(32);
    StepsOfZero(r);
  }

  /** A message followed by its own checksum in little-endian order drives the register to zero. */
  lemma ChecksumAppendedGivesZero(m: seq<byte>)
    ensures Checksum(m + LittleEndian(Checksum(m), 4)) == 0
  {
    hide BitsOf, Run, BitStream, LittleEndian, Register, Zeros, NumberOf, PRESET;
    var r := Register(PRESET, m);
    var tail := LittleEndian(NumberOf(r), 4);
    RegisterIsRun(PRESET, m);
    RegisterIsRun(PRESET, m + tail);
    BitStreamAppends(m, tail);
    RunAppends(PRESET, BitStream(m), BitStream(tail));
    StreamOfLittleEndian(NumberOf(r), 4);
    BitsOfNumber(r);
    RegisterCancels(r);
    ZeroNumber(32);
  }

  lemma {:induction false} ZeroNumber(n: nat)
    ensures NumberOf(Zeros(n)) == 0
  {
    if n > 0 {
      assert Zeros(n)[1..] == Zeros(n - 1);
      ZeroNumber(n - 1);
    }
  }

  // ----- what the checksum is -----

  /** The exponents of the generator polynomial of section 3.2.9 of IEEE 802.3. */
  const EXPONENTS: set<nat> := {32, 26, 23, 22, 16, 12, 11, 10, 8, 7, 5, 4, 2, 1, 0}

  /** The generator's coefficients, highest first. */
  function Generator(): (g: Bits)
    ensures |g| == 33
  {
    seq(33, i requires 0 <= i < 33 => 32 - i in EXPONENTS)
  }

  function Term(present: bool): (r: Bits)
    ensures |r| == 33
    ensures forall j :: 0 <= j < 33 ==> r[j] == (present && Generator()[j])
  {
    if present then Generator() else Zeros(33)
  }

  /** A polynomial over two elements times the generator, both highest coefficient first. */
  function Product(q: Bits): (r: Bits)
    ensures |r| == |q| + 32
    decreases |q|
  {
    if q == [] then Zeros(32)
    else
      var n := |q| - 1;
      Xor(Product(q[..n]) + [false], Zeros(n) + Term(q[n]))
  }

  /** The bits of a message with 32 zeros behind, and the first 32 bits of that complemented. */
  function Dividend(bits: Bits): (r: Bits)
    ensures |r| == |bits| + 32
  {
    seq(|bits| + 32, i requires 0 <= i < |bits| + 32 => (i < |bits| && bits[i]) != (i < 32))
  }

  /** What division of the dividend by the generator leaves, highest coefficient first. */
  ghost predicate IsRemainder(bits: Bits, r: Bits) {
    |r| == 32 && exists q :: |q| == |bits| && Dividend(bits) == Xor(Product(q), Zeros(|bits|) + r)
  }

  lemma ByteDigits()
    ensures ByteBits(0x20) == [false, false, false, false, false, true, false, false]
    ensures ByteBits(0x83) == [true, true, false, false, false, false, false, true]
    ensures ByteBits(0xB8) == [false, false, false, true, true, true, false, true]
    ensures ByteBits(0xED) == [true, false, true, true, false, true, true, true]
  {
    assert !Digit(0x20, 0) && !Digit(0x20, 1) && !Digit(0x20, 2) && !Digit(0x20, 3);
    assert !Digit(0x20, 4) && Digit(0x20, 5) && !Digit(0x20, 6) && !Digit(0x20, 7);
    assert Digit(0x83, 0) && Digit(0x83, 1) && !Digit(0x83, 2) && !Digit(0x83, 3);
    assert !Digit(0x83, 4) && !Digit(0x83, 5) && !Digit(0x83, 6) && Digit(0x83, 7);
    assert !Digit(0xB8, 0) && !Digit(0xB8, 1) && !Digit(0xB8, 2) && Digit(0xB8, 3);
    assert Digit(0xB8, 4) && Digit(0xB8, 5) && !Digit(0xB8, 6) && Digit(0xB8, 7);
    assert Digit(0xED, 0) && !Digit(0xED, 1) && Digit(0xED, 2) && Digit(0xED, 3);
    assert !Digit(0xED, 4) && Digit(0xED, 5) && Digit(0xED, 6) && Digit(0xED, 7);
  }

  lemma PolynomialBytes()
    ensures POLYNOMIAL == ByteBits(0x20) + ByteBits(0x83) + ByteBits(0xB8) + ByteBits(0xED)
  {
    SplitLowByte(0xEDB88320, 24);
    SplitLowByte(0xEDB883, 16);
    SplitLowByte(0xEDB8, 8);
  }

  /** The constant of the inner loop is the generator without its highest term, reflected. */
  lemma PolynomialIsReflectedGenerator()
    ensures Generator()[0] && POLYNOMIAL == Generator()[1..]
  {
    PolynomialBytes();
    ByteDigits();
  }

  lemma {:induction false} DigitsOfOnes(width: nat, i: nat)
    requires i < width
    ensures Digit(Pow2(width) - 1, i)
  {
    assert Pow2(width) - 1 == 2 * (Pow2(width - 1) - 1) + 1;
    if i > 0 { DigitsOfOnes(width - 1, i - 1); }
  }

  lemma PresetIsOnes()
    ensures forall i :: 0 <= i < 32 ==> PRESET[i]
  {
    Pow2Of32();
    forall i | 0 <= i < 32 ensures PRESET[i] { DigitsOfOnes(32, i); }
  }

  /** One step of the division: the bit that leaves the register, or enters, is the next one of the quotient. */
  lemma DivisionStep(bits: Bits, b: bool, q: Bits, c: Word)
    requires |q| == |bits| && Dividend(bits) == Xor(Product(q), Zeros(|bits|) + c)
    ensures var more, quotient := bits + [b], q + [c[0] != b];
            Dividend(more) == Xor(Product(quotient), Zeros(|more|) + BitStep(Xor(c, Load([b]))))
  {
    var n, t := |bits|, c[0] != b;
    var more, quotient, next := bits + [b], q + [t], BitStep(Xor(c, Load([b])));
    PolynomialIsReflectedGenerator();
    BitStepBits(Xor(c, Load([b])));
    assert quotient[..n] == q;
    hide *;
    forall k | 0 <= k < n + 33
      ensures Dividend(more)[k] == Xor(Product(quotient), Zeros(n + 1) + next)[k]
    {
      DivisionStepAt(bits, b, q, c, next, k);
    }
  }

  lemma DivisionStepAt(bits: Bits, b: bool, q: Bits, c: Word, next: Word, k: nat)
    requires |q| == |bits| && Dividend(bits) == Xor(Product(q), Zeros(|bits|) + c)
    requires next == BitStep(Xor(c, Load([b]))) && k < |bits| + 33
    ensures Dividend(bits + [b])[k] == Xor(Product(q + [c[0] != b]), Zeros(|bits| + 1) + next)[k]
  {
    hide *;
    var n, t := |bits|, c[0] != b;
    ProductOneMore(q, t, k);
    DividendOneMore(bits, b, k);
    if k >= n { RegisterStepAt(c, b, k - n); }
    BehindZeros(n + 1, next, k);
    XorAt(Product(q + [t]), Zeros(n + 1) + next, k);
    if k < n + 32 {
      BehindZeros(n, c, k);
      XorAt(Product(q), Zeros(n) + c, k);
    }
  }

  lemma XorAt(a: Bits, b: Bits, k: nat)
    requires |a| == |b| && k < |a|
    ensures Xor(a, b)[k] == (a[k] != b[k])
  {
  }

  lemma BehindZeros(n: nat, bits: Bits, k: nat)
    requires k < n + |bits|
    ensures (Zeros(n) + bits)[k] == (k >= n && bits[k - n])
  {
  }

  /** The register and the bit that enters, against the register after the step, one place later. */
  lemma RegisterStepAt(c: Word, b: bool, j: nat)
    requires j <= 32
    ensures var next := BitStep(Xor(c, Load([b])));
            ((j < 32 && c[j]) != (j == 0 && b))
              == (((c[0] != b) && Generator()[j]) != (j > 0 && next[j - 1]))
  {
    PolynomialIsReflectedGenerator();
    BitStepBits(Xor(c, Load([b])));
    if j > 0 { assert Generator()[j] == POLYNOMIAL[j - 1]; }
  }

  lemma ProductOneMore(q: Bits, t: bool, k: nat)
    requires k < |q| + 33
    ensures Product(q + [t])[k] == ((k < |q| + 32 && Product(q)[k]) != (k >= |q| && t && Generator()[k - |q|]))
  {
    hide *;
    ProductStep(q, t);
    XorAt(Product(q) + [false], Zeros(|q|) + Term(t), k);
    BehindZeros(|q|, Term(t), k);
  }

  lemma ProductStep(q: Bits, t: bool)
    ensures Product(q + [t]) == Xor(Product(q) + [false], Zeros(|q|) + Term(t))
  {
    hide Xor, Zeros, Term;
    assert (q + [t])[..|q|] == q;
  }

  lemma DividendOneMore(bits: Bits, b: bool, k: nat)
    requires k < |bits| + 33
    ensures Dividend(bits + [b])[k] == ((k < |bits| + 32 && Dividend(bits)[k]) != (k == |bits| && b))
  {
  }

  lemma RunOneMore(c: Word, bits: Bits, b: bool)
    ensures Run(c, bits + [b]) == BitStep(Xor(Run(c, bits), Load([b])))
  {
    RunAppends(c, bits, [b]);
    assert [b][..1] == [b] && [b][1..] == [];
    hide BitStep, Xor, Load;
  }

  lemma DivisionOfNothing()
    ensures IsRemainder([], PRESET)
  {
    PresetIsOnes();
    hide PRESET;
    assert Dividend([]) == Xor(Product([]), Zeros(0) + PRESET);
  }

  /** Feeding a message to the preset register is long division. */
  lemma {:induction false} RunIsDivision(bits: Bits)
    ensures IsRemainder(bits, Run(PRESET, bits))
    decreases |bits|
  {
    hide Product, Dividend, BitStep, PRESET, Run, Xor, Zeros, Load;
    if bits == [] {
      DivisionOfNothing();
      NoBits(PRESET);
    } else {
      var before, b := bits[..|bits| - 1], bits[|bits| - 1];
      assert bits == before + [b];
      RunIsDivision(before);
      RunOneMore(PRESET, before, b);
      var c := Run(PRESET, before);
      var q :| |q| == |before| && Dividend(before) == Xor(Product(q), Zeros(|before|) + c);
      DivisionStep(before, b, q, c);
      assert |q + [c[0] != b]| == |bits|;
    }
  }

  lemma NoBits(c: Word)
    ensures Run(c, []) == c
  {
  }

  lemma {:induction false} ProductIsLinear(p: Bits, q: Bits)
    requires |p| == |q|
    ensures Product(Xor(p, q)) == Xor(Product(p), Product(q))
    decreases |p|
  {
    if p != [] {
      hide *;
      var n := |p| - 1;
      ProductIsLinear(p[..n], q[..n]);
      FrontAndLast(p);
      FrontAndLast(q);
      LinearOneMore(p[..n], q[..n], p[n], q[n]);
    }
  }

  lemma FrontAndLast(p: Bits)
    requires p != []
    ensures p == p[..|p| - 1] + [p[|p| - 1]]
  {
  }

  lemma LinearOneMore(p: Bits, q: Bits, a: bool, b: bool)
    requires |p| == |q|
    requires Product(Xor(p, q)) == Xor(Product(p), Product(q))
    ensures Product(Xor(p + [a], q + [b])) == Xor(Product(p + [a]), Product(q + [b]))
  {
    hide *;
    XorOneMore(p, q, a, b);
    forall k | 0 <= k < |p| + 33
      ensures Product(Xor(p, q) + [a != b])[k] == Xor(Product(p + [a]), Product(q + [b]))[k]
    {
      SumAt(p, q, a, b, k);
    }
  }

  lemma XorOneMore(p: Bits, q: Bits, a: bool, b: bool)
    requires |p| == |q|
    ensures Xor(p + [a], q + [b]) == Xor(p, q) + [a != b]
  {
  }

  lemma SumAt(p: Bits, q: Bits, a: bool, b: bool, k: nat)
    requires |p| == |q| && k < |p| + 33
    requires Product(Xor(p, q)) == Xor(Product(p), Product(q))
    ensures Product(Xor(p, q) + [a != b])[k] == Xor(Product(p + [a]), Product(q + [b]))[k]
  {
    hide *;
    ProductOneMore(p, a, k);
    ProductOneMore(q, b, k);
    ProductOneMore(Xor(p, q), a != b, k);
    XorAt(Product(p + [a]), Product(q + [b]), k);
    if k < |p| + 32 { XorAt(Product(p), Product(q), k); }
  }

  /** A multiple of the generator of lower degree than the generator is zero. */
  lemma {:induction false} SmallMultipleIsZero(q: Bits)
    requires forall i :: 0 <= i < |q| ==> !Product(q)[i]
    ensures q == Zeros(|q|) && Product(q) == Zeros(|q| + 32)
    decreases |q|
  {
    if q != [] {
      var n := |q| - 1;
      assert Generator()[0];
      hide Generator;
      forall i | 0 <= i < n ensures !Product(q[..n])[i] { assert !Product(q)[i]; }
      SmallMultipleIsZero(q[..n]);
      assert Product(q)[n] == q[n];
      assert q == q[..n] + [q[n]];
    }
  }

  /** There is one remainder only. */
  lemma RemainderIsUnique(bits: Bits, r: Bits, s: Bits)
    requires IsRemainder(bits, r) && IsRemainder(bits, s)
    ensures r == s
  {
    var n := |bits|;
    var p :| |p| == n && Dividend(bits) == Xor(Product(p), Zeros(n) + r);
    var q :| |q| == n && Dividend(bits) == Xor(Product(q), Zeros(n) + s);
    ProductIsLinear(p, q);
    var d := Xor(p, q);
    forall i | 0 <= i < n + 32 ensures Product(d)[i] == ((Zeros(n) + r)[i] != (Zeros(n) + s)[i]) {
      assert Dividend(bits)[i] == (Product(p)[i] != (Zeros(n) + r)[i]);
      assert Dividend(bits)[i] == (Product(q)[i] != (Zeros(n) + s)[i]);
    }
    hide Product, Dividend;
    SmallMultipleIsZero(d);
    forall i | 0 <= i < 32 ensures r[i] == s[i] {
      assert (Zeros(n) + r)[n + i] == r[i] && (Zeros(n) + s)[n + i] == s[i];
      assert !Product(d)[n + i];
    }
  }

  lemma {:induction false} NumberFits(bits: Bits)
    ensures NumberOf(bits) < Pow2(|bits|)
  {
    if bits != [] { NumberFits(bits[1..]); }
  }

  lemma Pow2Of32()
    ensures Pow2(32) == 0x1_0000_0000
  {
    assert Pow2(8) == 0x100;
    assert Pow2(16) == 0x1_0000;
    assert Pow2(24) == 0x100_0000;
  }

  /** The bits of the checksum, lowest first, are the coefficients, highest first, of the one remainder that division
      of the message by the generator leaves. */
  lemma ChecksumIsTheRemainder(m: seq<byte>, r: Bits)
    ensures Checksum(m) < 0x1_0000_0000
    ensures r == BitsOf(Checksum(m), 32) <==> IsRemainder(BitStream(m), r)
  {
    var w := Register(PRESET, m);
    RegisterIsRun(PRESET, m);
    RunIsDivision(BitStream(m));
    BitsOfNumber(w);
    NumberFits(w);
    Pow2Of32();
    if IsRemainder(BitStream(m), r) { RemainderIsUnique(BitStream(m), w, r); }
  }

  /** Nothing to send gives a register still preset to ones. */
  lemma ChecksumOfNothing()
    ensures Checksum([]) == 0xFFFFFFFF
  {
    Pow2Of32();
    NumberOfBits(0xFFFFFFFF, 32);
  }
}
