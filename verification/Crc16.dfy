/**
 The ticket checksum: CRC-16 with polynomial 0x1021 and initial value 0xffff. The register is
 linear over exclusive or and its zero-input step is injective, so a checked frame cannot absorb a
 change confined to 16 consecutive bits.
 */
module Crc16 {
  import opened Common
  import opened Bits

  const POLY: nat := 0x1021

  /** One register step with no input. */
  function Shift(crc: nat): (r: nat)
    ensures r < 0x1_0000
  {
    WordSizes();
    Low(if And(crc, 0x8000) != 0 then Xor(2 * crc, POLY) else 2 * crc, 16)
  }

  function Shifts(crc: nat, n: nat): nat {
    if n == 0 then crc else Shift(Shifts(crc, n - 1))
  }

  function Absorb(crc: nat, byte: Byte): nat {
    Shifts(Xor(crc, Shl(byte, 8)), 8)
  }

  function Register(crc: nat, bytes: Bytes): nat {
    if bytes == [] then crc else Absorb(Register(crc, bytes[..|bytes| - 1]), bytes[|bytes| - 1])
  }

  function Checksum(bytes: Bytes): nat {
    Register(0xffff, bytes)
  }

  // Both sources: a loop over the bytes and eight shifts for each.
  method ComputeCrc(bytes: Bytes) returns (crc: nat)
    ensures crc == Checksum(bytes)
    ensures crc < 0x1_0000
  {
    crc := 0xffff;
    WordSizes();
    for k := 0 to |bytes|
      invariant crc == Register(0xffff, bytes[..k]) && crc < 0x1_0000
    {
      crc := Xor(crc, Shl(bytes[k], 8));
      ghost var start := crc;
      for i := 0 to 8
        invariant crc == Shifts(start, i)
        invariant i > 0 ==> crc < 0x1_0000
      {
        crc := Low(if And(crc, 0x8000) != 0 then Xor(2 * crc, POLY) else 2 * crc, 16);
      }
      assert bytes[..k + 1][..k] == bytes[..k];
    }
    assert bytes[..|bytes|] == bytes;
  }

  // The register one bit at a time.

  function Step(crc: nat, b: bool): nat {
    Shift(Xor(crc, B(b) * 0x8000))
  }

  function Run(crc: nat, bits: seq<bool>): nat
    decreases |bits|
  {
    if bits == [] then crc else Run(Step(crc, bits[0]), bits[1..])
  }

  lemma {:induction false} RunSplit(crc: nat, a: seq<bool>, b: seq<bool>)
    ensures Run(crc, a + b) == Run(Run(crc, a), b)
    decreases |a|
  {
    if a == [] {
      assert a + b == b;
    } else {
      assert (a + b)[1..] == a[1..] + b;
      RunSplit(Step(crc, a[0]), a[1..], b);
    }
  }

  lemma RunSnoc(crc: nat, a: seq<bool>, b: bool)
    ensures Run(crc, a + [b]) == Step(Run(crc, a), b)
  {
    RunSplit(crc, a, [b]);
    assert Run(Run(crc, a), [b]) == Run(Step(Run(crc, a), b), [b][1..]);
  }

  lemma {:induction false} RunRange(crc: nat, bits: seq<bool>)
    requires crc < 0x1_0000
    ensures Run(crc, bits) < 0x1_0000
    decreases |bits|
  {
    if bits != [] { RunRange(Step(crc, bits[0]), bits[1..]); }
  }

  // Linearity.

  lemma Feedback(crc: nat)
    requires crc < 0x1_0000
    ensures And(crc, 0x8000) != 0 <==> crc >= 0x8000
    ensures And(crc, 0x8000) != 0 <==> Bit(crc, 15)
  {
    WordSizes();
    AndPow2(crc, 15);
    TopBit(crc, 15);
  }

  lemma ShiftXor(x: nat, y: nat)
    requires x < 0x1_0000 && y < 0x1_0000
    ensures Shift(Xor(x, y)) == Xor(Shift(x), Shift(y))
  {
    WordSizes();
    XorBound(x, y, 16);
    Feedback(x);
    Feedback(y);
    Feedback(Xor(x, y));
    BitXor(x, y, 15);
    var px, py := if x >= 0x8000 then POLY else 0, if y >= 0x8000 then POLY else 0;
    XorZero(2 * x);
    XorZero(2 * y);
    XorZero(2 * Xor(x, y));
    XorZero(POLY);
    XorSelf(POLY);
    XorDouble(x, y);
    XorSwap(2 * x, px, 2 * y, py);
    XorLow(Xor(2 * x, px), Xor(2 * y, py), 16);
  }

  lemma FeedbackBits(x: nat)
    requires x < 0x1_0000
    ensures Shift(x) == if x >= 0x8000 then Xor(2 * x - 0x1_0000, 0x1021) else 2 * x
  {
    hide Xor, Low, And;
    WordSizes();
    Feedback(x);
    LowIsMod(2 * x, 16);
    LowSmall(POLY, 16);
    XorLow(2 * x, POLY, 16);
  }

  /**
   One bit of long division by x^16 + x^12 + x^5 + 1: the register moves up by one bit, and the divisor is
   subtracted exactly if the bit that leaves differs from the bit that comes in.
   */
  lemma StepExactly(x: nat, b: bool)
    requires x < 0x1_0000
    ensures Step(x, b) == var up := 2 * (x % 0x8000); if (x >= 0x8000) != b then Xor(up, 0x1021) else up
  {
    hide Xor, Shift, And, Low;
    var up := 2 * (x % 0x8000);
    FeedbackBits(x);
    XorZero(x);
    if b {
      FeedbackBits(0x8000);
      XorZero(POLY);
      ShiftXor(x, 0x8000);
      XorAssoc(up, POLY, POLY);
      XorSelf(POLY);
      XorZero(up);
    }
  }

  function XorBits(a: seq<bool>, b: seq<bool>): (d: seq<bool>)
    requires |a| == |b|
    ensures |d| == |a|
  {
    seq(|a|, i requires 0 <= i < |a| => a[i] != b[i])
  }

  lemma InputXor(a: bool, b: bool)
    ensures Xor(B(a) * 0x8000, B(b) * 0x8000) == B(a != b) * 0x8000
  {
    XorZero(0x8000);
    XorSelf(0x8000);
    XorSelf(0);
  }

  lemma StepXor(x: nat, y: nat, a: bool, b: bool)
    requires x < 0x1_0000 && y < 0x1_0000
    ensures Step(Xor(x, y), a != b) == Xor(Step(x, a), Step(y, b))
  {
    var p, q := B(a) * 0x8000, B(b) * 0x8000;
    WordSizes();
    InputXor(a, b);
    XorSwap(x, y, p, q);
    XorBound(x, p, 16);
    XorBound(y, q, 16);
    ShiftXor(Xor(x, p), Xor(y, q));
  }

  /** The register is linear in the state and the input together. */
  lemma {:induction false} RunXor(x: nat, y: nat, a: seq<bool>, b: seq<bool>)
    requires x < 0x1_0000 && y < 0x1_0000 && |a| == |b|
    ensures Run(Xor(x, y), XorBits(a, b)) == Xor(Run(x, a), Run(y, b))
    decreases |a|
  {
    if a != [] {
      var d := XorBits(a, b);
      StepXor(x, y, a[0], b[0]);
      assert d[0] == (a[0] != b[0]);
      assert d[1..] == XorBits(a[1..], b[1..]);
      RunXor(Step(x, a[0]), Step(y, b[0]), a[1..], b[1..]);
      assert Run(Xor(x, y), d) == Run(Step(Xor(x, y), d[0]), d[1..]);
    }
  }

  // Zero input keeps exactly the zero state, because the polynomial has a constant term.

  lemma ShiftZero(x: nat)
    requires x < 0x1_0000
    ensures Shift(x) == 0 <==> x == 0
  {
    WordSizes();
    Feedback(x);
    if x >= 0x8000 {
      XorHalf(2 * x, POLY);
    } else {
      LowSmall(2 * x, 16);
    }
  }

  lemma {:induction false} ShiftsRange(x: nat, n: nat)
    requires x < 0x1_0000
    ensures Shifts(x, n) < 0x1_0000
  {
  }

  lemma {:induction false} ShiftsZero(x: nat, n: nat)
    requires x < 0x1_0000
    ensures Shifts(x, n) == 0 <==> x == 0
  {
    if n > 0 {
      ShiftsZero(x, n - 1);
      ShiftsRange(x, n - 1);
      ShiftZero(Shifts(x, n - 1));
    }
  }

  lemma {:induction false} ShiftsXor(x: nat, y: nat, n: nat)
    requires x < 0x1_0000 && y < 0x1_0000
    ensures Shifts(Xor(x, y), n) == Xor(Shifts(x, n), Shifts(y, n))
  {
    if n > 0 {
      ShiftsXor(x, y, n - 1);
      ShiftsRange(x, n - 1);
      ShiftsRange(y, n - 1);
      ShiftXor(Shifts(x, n - 1), Shifts(y, n - 1));
    }
  }

  /** As long as the top bit stays clear, shifting is doubling. */
  lemma {:induction false} ShiftsDouble(x: nat, n: nat)
    requires Shl(x, n) < 0x1_0000
    ensures Shifts(x, n) == Shl(x, n)
  {
    if n > 0 {
      ShiftsDouble(x, n - 1);
      Feedback(Shl(x, n - 1));
      WordSizes();
      LowSmall(Shl(x, n), 16);
    }
  }

  /** The last of n bits, loaded low, arrives at the top after n - 1 shifts. */
  lemma LastBit(b: bool, n: nat)
    requires 1 <= n <= 16
    ensures Shl(B(b), 16 - n) < Pow2(17 - n)
    ensures Shl(B(b), 16 - n) < 0x1_0000
    ensures Shifts(Shl(B(b), 16 - n), n - 1) == B(b) * 0x8000
  {
    hide Shl, Shifts;
    ShlRange(B(b), 1, 16 - n);
    ShlAgain(B(b), 16 - n, n - 1);
    ShlBit(b, 15);
    WordSizes();
    ShlAgain(B(b), 16 - n, n);
    ShlRange(Shl(B(b), 16 - n), 17 - n, n - 1);
    ShiftsDouble(Shl(B(b), 16 - n), n - 1);
  }

  lemma {:induction false} ShlAgain(x: nat, a: nat, b: nat)
    ensures Shl(Shl(x, a), b) == Shl(x, a + b)
    ensures Shl(x, a) <= Shl(x, a + b)
  {
    if b > 0 { ShlAgain(x, a, b - 1); }
  }

  lemma {:induction false} ShlBit(b: bool, k: nat)
    ensures Shl(B(b), k) == B(b) * Pow2(k)
  {
    if k > 0 { ShlBit(b, k - 1); }
  }

  lemma LoadXor(crc: nat, v: nat, n: nat)
    requires 1 <= n <= 16
    ensures Xor(Xor(crc, Shl(v / 2, 17 - n)), Shl(v % 2, 16 - n)) == Xor(crc, Shl(v, 16 - n))
  {
    hide Xor, Shl, Shifts;
    var high, low := Shl(v / 2, 17 - n), Shl(v % 2, 16 - n);
    LastBit(v % 2 == 1, n);
    ShlHalf(v, 16 - n);
    XorAssoc(crc, high, low);
    JoinDisjoint(v / 2, low, 17 - n);
  }

  lemma ShiftsStep(x: nat, bit: bool, n: nat)
    requires 1 <= n <= 16 && x < 0x1_0000
    ensures Step(Shifts(x, n - 1), bit) == Shifts(Xor(x, Shl(B(bit), 16 - n)), n)
  {
    LastBit(bit, n);
    ShiftsXor(x, Shl(B(bit), 16 - n), n - 1);
  }

  lemma RunDigitsStep(crc: nat, v: nat, n: nat)
    requires n >= 1
    ensures Run(crc, Digits(v, n)) == Step(Run(crc, Digits(v / 2, n - 1)), v % 2 == 1)
  {
    RunSnoc(crc, Digits(v / 2, n - 1), v % 2 == 1);
  }

  lemma LoadRange(crc: nat, v: nat, n: nat)
    requires crc < 0x1_0000 && n <= 16 && v < Pow2(n)
    ensures Xor(crc, Shl(v, 16 - n)) < 0x1_0000
  {
    WordSizes();
    ShlRange(v, n, 16 - n);
    XorBound(crc, Shl(v, 16 - n), 16);
  }

  /** Feeding up to 16 bits is loading them at the top of the register and then shifting. */
  lemma {:induction false} RunIsLoad(crc: nat, v: nat, n: nat)
    requires crc < 0x1_0000 && n <= 16 && v < Pow2(n)
    ensures Run(crc, Digits(v, n)) == Shifts(Xor(crc, Shl(v, 16 - n)), n)
  {
    hide Xor, Shl;
    if n == 0 {
      ShlZero(16);
      XorZero(crc);
      assert Digits(v, 0) == [];
    } else {
      hide Digits, Run, Shifts;
      var loaded := Xor(crc, Shl(v / 2, 17 - n));
      RunDigitsStep(crc, v, n);
      RunIsLoad(crc, v / 2, n - 1);
      LoadRange(crc, v / 2, n - 1);
      ShiftsStep(loaded, v % 2 == 1, n);
      LoadXor(crc, v, n);
    }
  }

  lemma {:induction false} ShlZero(k: nat)
    ensures Shl(0, k) == 0
  {
    if k > 0 { ShlZero(k - 1); }
  }

  // Bytes and bits.

  /** The bits of a byte string, most significant first. */
  function ByteBits(bytes: Bytes): (d: seq<bool>)
    ensures |d| == 8 * |bytes|
  {
    OctetBits(bytes);
    Unpack(bytes, 8)
  }

  lemma {:induction false} OctetBits(bytes: Bytes)
    ensures |Unpack(bytes, 8)| == 8 * |bytes|
  {
    if bytes != [] { OctetBits(bytes[..|bytes| - 1]); }
  }

  lemma BytesFit(bytes: Bytes)
    ensures Fits(bytes, 8)
  {
    WordSizes();
  }

  /** The byte loop computes the bit-serial register. */
  lemma {:induction false} RegisterIsRun(crc: nat, bytes: Bytes)
    requires crc < 0x1_0000
    ensures Register(crc, bytes) == Run(crc, ByteBits(bytes))
    ensures Register(crc, bytes) < 0x1_0000
  {
    RunRange(crc, ByteBits(bytes));
    if bytes != [] {
      var n := |bytes| - 1;
      RegisterIsRun(crc, bytes[..n]);
      WordSizes();
      RunSplit(crc, ByteBits(bytes[..n]), Digits(bytes[n], 8));
      RunIsLoad(Register(crc, bytes[..n]), bytes[n], 8);
    }
  }

  // A frame is a payload followed by its checksum, high byte first.

  function Frame(payload: Bytes): Bytes {
    var crc := Checksum(payload);
    payload + [crc / 256 % 256, crc % 256]
  }

  predicate Checked(frame: Bytes)
    requires |frame| >= 2
  {
    var n := |frame| - 2;
    Checksum(frame[..n]) == (frame[n] as int) * 256 + frame[n + 1]
  }

  lemma FrameChecked(payload: Bytes)
    ensures Checked(Frame(payload))
  {
    var crc := Checksum(payload);
    assert crc < 0x1_0000 by { RegisterIsRun(0xffff, payload); }
    assert crc / 256 % 256 == crc / 256;
    assert Frame(payload)[..|payload|] == payload;
  }

  lemma ShlByte(x: nat)
    ensures Shl(x, 8) == 256 * x
  {
    assert Shl(x, 1) == 2 * x;
    assert Shl(x, 2) == 4 * x;
    assert Shl(x, 4) == 16 * x;
    assert Shl(x, 6) == 64 * x;
  }

  lemma PairDigits(x: Byte, y: Byte)
    ensures Digits((x as int) * 256 + y, 16) == Digits(x, 8) + Digits(y, 8)
  {
    hide Digits, Shl;
    WordSizes();
    ShlByte(x);
    DigitsJoin(x, y, 8, 8);
  }

  lemma PairBits(x: Byte, y: Byte)
    ensures ByteBits([x, y]) == Digits((x as int) * 256 + y, 16)
  {
    hide Digits, Shl;
    PairDigits(x, y);
    UnpackSnoc([], x, 8);
    UnpackSnoc([x], y, 8);
    assert [] + [x] == [x] && [x] + [y] == [x, y];
    assert Unpack([], 8) + Digits(x, 8) == Digits(x, 8);
  }

  /** From a register that equals the stored checksum, and from no other, the checksum runs to zero. */
  lemma StoredIsZero(crc: nat, stored: nat)
    requires crc < 0x1_0000 && stored < 0x1_0000
    ensures Run(crc, Digits(stored, 16)) == 0 <==> crc == stored
  {
    WordSizes();
    RunIsLoad(crc, stored, 16);
    assert Shl(stored, 0) == stored;
    XorBound(crc, stored, 16);
    ShiftsZero(Xor(crc, stored), 16);
    if crc == stored { XorSelf(crc); }
    if Xor(crc, stored) == 0 { XorCancel(crc, stored); }
  }

  /** Running the register over the whole frame leaves zero exactly when the checksum matches. */
  lemma CheckedIsZero(frame: Bytes)
    requires |frame| >= 2
    ensures Checked(frame) <==> Run(0xffff, ByteBits(frame)) == 0
  {
    hide Digits, Unpack, Register, Run;
    var n := |frame| - 2;
    var payload, tail := frame[..n], [frame[n], frame[n + 1]];
    assert frame == payload + tail;
    UnpackSplit(payload, tail, 8);
    PairBits(frame[n], frame[n + 1]);
    RegisterIsRun(0xffff, payload);
    RunSplit(0xffff, ByteBits(payload), ByteBits(tail));
    StoredIsZero(Checksum(payload), (frame[n] as int) * 256 + frame[n + 1]);
  }

  // Burst errors.

  predicate SameOutside(a: seq<bool>, b: seq<bool>, from: nat, to: nat) {
    |a| == |b| && forall i :: 0 <= i < |a| && !(from <= i < to) ==> a[i] == b[i]
  }

  function Zeros(n: nat): (z: seq<bool>)
    ensures |z| == n
  {
    seq(n, i => false)
  }

  lemma {:induction false} RunZeros(crc: nat, n: nat)
    ensures Run(crc, Zeros(n)) == Shifts(crc, n)
  {
    if n > 0 {
      RunZeros(crc, n - 1);
      assert Zeros(n) == Zeros(n - 1) + [false];
      RunSnoc(crc, Zeros(n - 1), false);
      XorZero(Run(crc, Zeros(n - 1)));
    }
  }

  /** A 16-bit burst inside zeros that leaves the zero register at zero is no change at all. */
  lemma BurstIsZero(burst: seq<bool>, before: nat, after: nat)
    requires |burst| == 16
    requires Run(0, Zeros(before) + burst + Zeros(after)) == 0
    ensures burst == Zeros(16)
  {
    RunSplit(0, Zeros(before) + burst, Zeros(after));
    RunSplit(0, Zeros(before), burst);
    RunZeros(0, before);
    ShiftsZero(0, before);
    var reached := Run(0, burst);
    RunRange(0, burst);
    RunZeros(reached, after);
    ShiftsZero(reached, after);
    assert reached == 0;
    var v := Value(burst);
    ValueDigits(burst);
    WordSizes();
    assert Shl(v, 0) == v;
    RunIsLoad(0, v, 16);
    XorZero(v);
    ShiftsZero(v, 16);
    DigitsZero(16);
  }

  lemma DifferenceIsZero(a: Bytes, b: Bytes)
    requires |a| == |b| >= 2 && Checked(a) && Checked(b)
    ensures Run(0, XorBits(ByteBits(a), ByteBits(b))) == 0
  {
    CheckedIsZero(a);
    CheckedIsZero(b);
    RunXor(0xffff, 0xffff, ByteBits(a), ByteBits(b));
    XorSelf(0xffff);
    XorSelf(0);
  }

  /** Two frames that both pass the check and differ only within 16 consecutive bits are equal. */
  lemma BurstDetected(a: Bytes, b: Bytes, from: nat)
    requires |a| == |b| >= 2
    requires Checked(a) && Checked(b)
    requires SameOutside(ByteBits(a), ByteBits(b), from, from + 16)
    ensures a == b
  {
    hide Run, Register, Unpack;
    var x, y := ByteBits(a), ByteBits(b);
    var at := if from + 16 <= |x| then from else |x| - 16;
    var d := XorBits(x, y);
    DifferenceIsZero(a, b);
    var burst, after := d[at..at + 16], |d| - at - 16;
    assert d == Zeros(at) + burst + Zeros(after);
    BurstIsZero(burst, at, after);
    assert x == y by {
      forall i | 0 <= i < |x| ensures x[i] == y[i] {
        if at <= i < at + 16 { assert d[i] == burst[i - at]; }
      }
    }
    BytesFit(a);
    BytesFit(b);
    UnpackInjective(a, b, 8);
  }
}
