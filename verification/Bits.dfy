/**
 The bitwise operators of the source languages on natural numbers. A machine word of w bits is a
 number below Pow2(w); a shift that drops bits beyond the word is written `Low(Shl(x, k), w)`.
 */
module Bits {

  /** x << k, unbounded. */
  function Shl(x: nat, k: nat): nat {
    if k == 0 then x else 2 * Shl(x, k - 1)
  }

  /** x >>> k. */
  function Shr(x: nat, k: nat): nat {
    if k == 0 then x else Shr(x / 2, k - 1)
  }

  function Pow2(n: nat): (p: nat)
    ensures p > 0
  {
    if n == 0 then 1 else 2 * Pow2(n - 1)
  }

  /** The low k bits of x, that is x modulo Pow2(k). */
  function Low(x: nat, k: nat): (r: nat)
    ensures r < Pow2(k)
  {
    if k == 0 then 0 else 2 * Low(x / 2, k - 1) + x % 2
  }

  predicate Bit(x: nat, i: nat) {
    if i == 0 then x % 2 == 1 else Bit(x / 2, i - 1)
  }

  function B(b: bool): nat {
    if b then 1 else 0
  }

  function And(x: nat, y: nat): nat {
    if x == 0 || y == 0 then 0 else 2 * And(x / 2, y / 2) + B(x % 2 == 1 && y % 2 == 1)
  }

  function Or(x: nat, y: nat): nat
    decreases x + y
  {
    if x == 0 && y == 0 then 0 else 2 * Or(x / 2, y / 2) + B(x % 2 == 1 || y % 2 == 1)
  }

  function Xor(x: nat, y: nat): nat
    decreases x + y
  {
    if x == 0 && y == 0 then 0 else 2 * Xor(x / 2, y / 2) + B(x % 2 != y % 2)
  }

  // Word sizes.

  lemma {:induction false} ShlPow2(a: nat, b: nat)
    ensures Shl(Pow2(a), b) == Pow2(a + b)
  {
    if b > 0 { ShlPow2(a, b - 1); }
  }

  lemma WordSizes()
    ensures Pow2(8) == 0x100 && Pow2(15) == 0x8000 && Pow2(16) == 0x1_0000
    ensures Pow2(32) == 0x1_0000_0000 && Pow2(64) == 0x1_0000_0000_0000_0000
  {
    assert Pow2(8) == 0x100;
    assert Pow2(16) == 0x1_0000;
    assert Pow2(24) == 0x100_0000;
    assert Pow2(32) == 0x1_0000_0000;
    assert Pow2(40) == 0x100_0000_0000;
    assert Pow2(48) == 0x1_0000_0000_0000;
    assert Pow2(56) == 0x100_0000_0000_0000;
  }

  lemma ModHalf(x: nat, m: nat)
    requires m > 0
    ensures x % (2 * m) == 2 * (x / 2 % m) + x % 2
  {
    var q, r := x / 2 / m, x / 2 % m;
    assert x / 2 == m * q + r;
    assert x == (2 * m) * q + (2 * r + x % 2);
    ModUnique(x, 2 * m, q, 2 * r + x % 2);
  }

  lemma MulSign(m: nat, e: int)
    ensures e >= 1 ==> m * e >= m
    ensures e <= -1 ==> m * e + m <= 0
  {
    if e >= 1 {
      assert m * e - m == m * (e - 1) >= 0;
    } else if e <= -1 {
      assert m * e + m == m * (e + 1) <= 0;
    }
  }

  lemma ModUnique(x: nat, m: nat, q: int, r: nat)
    requires r < m && x == m * q + r
    ensures x % m == r
  {
    assert m * (x / m - q) == r - x % m;
    MulSign(m, x / m - q);
  }

  lemma {:induction false} LowIsMod(x: nat, k: nat)
    ensures Low(x, k) == x % Pow2(k)
  {
    if k > 0 {
      ModHalf(x, Pow2(k - 1));
      LowIsMod(x / 2, k - 1);
    }
  }

  lemma {:induction false} LowSmall(x: nat, k: nat)
    requires x < Pow2(k)
    ensures Low(x, k) == x
  {
    if k > 0 { LowSmall(x / 2, k - 1); }
  }

  lemma {:induction false} ShlHalf(x: nat, k: nat)
    ensures Shl(x, k) == Shl(x / 2, k + 1) + Shl(x % 2, k)
  {
    if k > 0 { ShlHalf(x, k - 1); }
  }

  lemma {:induction false} ShlRange(x: nat, n: nat, k: nat)
    requires x < Pow2(n)
    ensures Shl(x, k) < Pow2(n + k)
  {
    if k > 0 { ShlRange(x, n, k - 1); }
  }

  // The bits of each operator.

  lemma {:induction false} BitZero(i: nat)
    ensures !Bit(0, i)
  {
    if i > 0 { BitZero(i - 1); }
  }

  lemma {:induction false} BitOr(x: nat, y: nat, i: nat)
    ensures Bit(Or(x, y), i) == (Bit(x, i) || Bit(y, i))
  {
    if x == 0 && y == 0 {
      BitZero(i);
    } else if i > 0 {
      BitOr(x / 2, y / 2, i - 1);
    }
  }

  lemma {:induction false} BitXor(x: nat, y: nat, i: nat)
    ensures Bit(Xor(x, y), i) == (Bit(x, i) != Bit(y, i))
  {
    if x == 0 && y == 0 {
      BitZero(i);
    } else if i > 0 {
      BitXor(x / 2, y / 2, i - 1);
    }
  }

  lemma {:induction false} BitShift(x: nat, k: nat, i: nat)
    ensures Bit(Shl(x, k), i) == (i >= k && Bit(x, i - k))
  {
    if k > 0 && i > 0 { BitShift(x, k - 1, i - 1); }
  }

  lemma {:induction false} BitPow2(k: nat, i: nat)
    ensures Bit(Pow2(k), i) == (i == k)
  {
    if k == 0 {
      if i > 0 { BitZero(i - 1); }
    } else if i > 0 {
      BitPow2(k - 1, i - 1);
    }
  }

  lemma {:induction false} BitLow(x: nat, k: nat, i: nat)
    ensures Bit(Low(x, k), i) == (i < k && Bit(x, i))
  {
    if k == 0 {
      BitZero(i);
    } else if i > 0 {
      BitLow(x / 2, k - 1, i - 1);
    }
  }

  /** Masking with a single bit is nonzero exactly when that bit is set. */
  lemma {:induction false} AndPow2(x: nat, k: nat)
    ensures And(x, Pow2(k)) != 0 <==> Bit(x, k)
  {
    if x == 0 {
      BitZero(k);
    } else if k > 0 {
      AndPow2(x / 2, k - 1);
    } else {
      assert And(x / 2, 0) == 0;
    }
  }

  /** Masking with 2^k - 1 keeps the low k bits. */
  lemma {:induction false} AndMask(x: nat, k: nat)
    ensures And(x, Pow2(k) - 1) == Low(x, k)
  {
    if x == 0 {
      LowSmall(0, k);
    } else if k > 0 {
      assert (Pow2(k) - 1) / 2 == Pow2(k - 1) - 1;
      AndMask(x / 2, k - 1);
    }
  }

  lemma {:induction false} TopBit(x: nat, k: nat)
    requires x < Pow2(k + 1)
    ensures Bit(x, k) <==> x >= Pow2(k)
  {
    if k > 0 { TopBit(x / 2, k - 1); }
  }

  lemma {:induction false} OrBound(x: nat, y: nat, k: nat)
    requires x < Pow2(k) && y < Pow2(k)
    ensures Or(x, y) < Pow2(k)
  {
    if !(x == 0 && y == 0) { OrBound(x / 2, y / 2, k - 1); }
  }

  lemma {:induction false} XorBound(x: nat, y: nat, k: nat)
    requires x < Pow2(k) && y < Pow2(k)
    ensures Xor(x, y) < Pow2(k)
  {
    if !(x == 0 && y == 0) { XorBound(x / 2, y / 2, k - 1); }
  }

  // Exclusive or is an abelian group in which every element is its own inverse.

  lemma {:induction false} XorComm(x: nat, y: nat)
    ensures Xor(x, y) == Xor(y, x)
    decreases x + y
  {
    if !(x == 0 && y == 0) { XorComm(x / 2, y / 2); }
  }

  lemma {:induction false} XorZero(x: nat)
    ensures Xor(x, 0) == x && Xor(0, x) == x
  {
    if x != 0 { XorZero(x / 2); }
  }

  lemma {:induction false} XorSelf(x: nat)
    ensures Xor(x, x) == 0
  {
    if x != 0 { XorSelf(x / 2); }
  }

  lemma XorHalf(x: nat, y: nat)
    ensures Xor(x, y) / 2 == Xor(x / 2, y / 2)
    ensures Xor(x, y) % 2 == B(x % 2 != y % 2)
  {
  }

  lemma {:induction false} XorAssoc(x: nat, y: nat, z: nat)
    ensures Xor(Xor(x, y), z) == Xor(x, Xor(y, z))
    decreases x + y + z
  {
    if x == 0 && y == 0 {
      XorZero(z);
    } else if y == 0 && z == 0 {
      XorZero(x);
    } else {
      XorHalf(x, y);
      XorHalf(y, z);
      XorHalf(Xor(x, y), z);
      XorHalf(x, Xor(y, z));
      XorAssoc(x / 2, y / 2, z / 2);
    }
  }

  lemma XorCancel(x: nat, y: nat)
    requires Xor(x, y) == 0
    ensures x == y
  {
    XorAssoc(x, y, y);
    XorSelf(y);
    XorZero(x);
    XorZero(y);
  }

  /** (a ^ b) ^ (c ^ d) == (a ^ c) ^ (b ^ d) */
  lemma XorSwap(a: nat, b: nat, c: nat, d: nat)
    ensures Xor(Xor(a, b), Xor(c, d)) == Xor(Xor(a, c), Xor(b, d))
  {
    XorAssoc(a, b, Xor(c, d));
    XorAssoc(b, c, d);
    XorComm(b, c);
    XorAssoc(c, b, d);
    XorAssoc(a, c, Xor(b, d));
  }

  lemma XorDouble(x: nat, y: nat)
    ensures Xor(2 * x, 2 * y) == 2 * Xor(x, y)
  {
  }

  lemma {:induction false} XorLow(x: nat, y: nat, k: nat)
    ensures Xor(Low(x, k), Low(y, k)) == Low(Xor(x, y), k)
  {
    if k > 0 {
      XorLow(x / 2, y / 2, k - 1);
      XorHalf(x, y);
      XorHalf(Low(x, k), Low(y, k));
      assert Low(x, k) / 2 == Low(x / 2, k - 1) && Low(x, k) % 2 == x % 2;
      assert Low(y, k) / 2 == Low(y / 2, k - 1) && Low(y, k) % 2 == y % 2;
    }
  }

  /** With disjoint supports, exclusive or and bitwise or are addition. */
  lemma {:induction false} JoinDisjoint(x: nat, y: nat, k: nat)
    requires y < Pow2(k)
    ensures Xor(Shl(x, k), y) == Shl(x, k) + y
    ensures Or(Shl(x, k), y) == Shl(x, k) + y
  {
    if k == 0 {
      XorZero(x);
      OrZero(x);
    } else {
      JoinDisjoint(x, y / 2, k - 1);
    }
  }

  lemma {:induction false} OrZero(x: nat)
    ensures Or(x, 0) == x
  {
    if x != 0 { OrZero(x / 2); }
  }

  // Words as bit strings, most significant bit first.

  /** The low n bits of x, most significant first. */
  function Digits(x: nat, n: nat): (d: seq<bool>)
    ensures |d| == n
  {
    if n == 0 then [] else Digits(x / 2, n - 1) + [x % 2 == 1]
  }

  lemma {:induction false} DigitsLow(x: nat, m: nat, n: nat)
    requires n <= m
    ensures Digits(Low(x, m), n) == Digits(x, n)
  {
    if n > 0 { DigitsLow(x / 2, m - 1, n - 1); }
  }

  /** Joining two words joins their bit strings. */
  lemma {:induction false} DigitsJoin(a: nat, b: nat, n: nat, k: nat)
    requires b < Pow2(k)
    ensures Digits(Shl(a, k) + b, n + k) == Digits(a, n) + Digits(b, k)
  {
    if k > 0 {
      DigitsJoin(a, b / 2, n, k - 1);
      assert (Shl(a, k) + b) / 2 == Shl(a, k - 1) + b / 2;
    }
  }

  /** Cutting a word cuts its bit string. */
  lemma {:induction false} DigitsSplit(x: nat, n: nat, k: nat)
    ensures Digits(x, n + k) == Digits(Shr(x, k), n) + Digits(x, k)
  {
    if k > 0 { DigitsSplit(x / 2, n, k - 1); }
  }

  lemma {:induction false} DigitsInjective(x: nat, y: nat, n: nat)
    requires x < Pow2(n) && y < Pow2(n)
    requires Digits(x, n) == Digits(y, n)
    ensures x == y
  {
    if n > 0 {
      assert Digits(x, n)[..n - 1] == Digits(x / 2, n - 1);
      assert Digits(y, n)[..n - 1] == Digits(y / 2, n - 1);
      assert Digits(x, n)[n - 1] == Digits(y, n)[n - 1];
      DigitsInjective(x / 2, y / 2, n - 1);
    }
  }

  lemma {:induction false} DigitsZero(n: nat)
    ensures Digits(0, n) == seq(n, i => false)
  {
    if n > 0 {
      DigitsZero(n - 1);
      assert seq(n, i => false) == seq(n - 1, i => false) + [false];
    }
  }

  function Value(bits: seq<bool>): nat {
    if bits == [] then 0 else 2 * Value(bits[..|bits| - 1]) + B(bits[|bits| - 1])
  }

  lemma {:induction false} ValueDigits(bits: seq<bool>)
    ensures Value(bits) < Pow2(|bits|) && Digits(Value(bits), |bits|) == bits
  {
    if bits != [] {
      var n := |bits| - 1;
      ValueDigits(bits[..n]);
      assert Value(bits) / 2 == Value(bits[..n]);
      assert bits == bits[..n] + [bits[n]];
    }
  }

  /** The bit string of a sequence of w-bit words, and back. */
  function Unpack(words: seq<nat>, w: nat): seq<bool> {
    if words == [] then [] else Unpack(words[..|words| - 1], w) + Digits(words[|words| - 1], w)
  }

  function Pack(bits: seq<bool>, w: nat): seq<nat>
    requires w > 0
  {
    var n := |bits| - w;
    if n < 0 then [] else Pack(bits[..n], w) + [Value(bits[n..])]
  }

  /** The length is a whole number of w-bit words. */
  predicate Whole(length: nat, w: nat)
    requires w > 0
  {
    length == 0 || (length >= w && Whole(length - w, w))
  }

  predicate Fits(words: seq<nat>, w: nat) {
    forall i :: 0 <= i < |words| ==> words[i] < Pow2(w)
  }

  lemma UnpackSnoc(words: seq<nat>, x: nat, w: nat)
    ensures Unpack(words + [x], w) == Unpack(words, w) + Digits(x, w)
  {
    hide Digits;
    assert (words + [x])[..|words|] == words;
  }

  lemma {:induction false} UnpackSplit(a: seq<nat>, b: seq<nat>, w: nat)
    ensures Unpack(a + b, w) == Unpack(a, w) + Unpack(b, w)
  {
    hide Digits;
    if b == [] {
      assert a + b == a;
    } else {
      var n := |b| - 1;
      var last := Digits(b[n], w);
      UnpackSplit(a, b[..n], w);
      UnpackSnoc(a + b[..n], b[n], w);
      assert a + b == a + b[..n] + [b[n]];
      assert Unpack(a, w) + (Unpack(b[..n], w) + last) == Unpack(a, w) + Unpack(b[..n], w) + last;
    }
  }

  lemma {:induction false} UnpackInjective(a: seq<nat>, b: seq<nat>, w: nat)
    requires |a| == |b| && Fits(a, w) && Fits(b, w)
    requires Unpack(a, w) == Unpack(b, w)
    ensures a == b
  {
    hide Digits, Pow2;
    if a != [] {
      var n := |a| - 1;
      var x, y := Unpack(a[..n], w), Unpack(b[..n], w);
      assert Unpack(a, w) == x + Digits(a[n], w) && Unpack(b, w) == y + Digits(b[n], w);
      assert x == (x + Digits(a[n], w))[..|x|] && Digits(a[n], w) == (x + Digits(a[n], w))[|x|..];
      assert y == (y + Digits(b[n], w))[..|y|] && Digits(b[n], w) == (y + Digits(b[n], w))[|y|..];
      DigitsInjective(a[n], b[n], w);
      UnpackInjective(a[..n], b[..n], w);
      assert a == a[..n] + [a[n]] && b == b[..n] + [b[n]];
    }
  }

  lemma {:induction false} UnpackPack(bits: seq<bool>, w: nat)
    requires w > 0 && Whole(|bits|, w)
    ensures Fits(Pack(bits, w), w) && Unpack(Pack(bits, w), w) == bits
    decreases |bits|
  {
    hide Value, Digits;
    if bits != [] {
      var k := |bits| - w;
      var front, last := Pack(bits[..k], w), Value(bits[k..]);
      UnpackPack(bits[..k], w);
      ValueDigits(bits[k..]);
      assert Pack(bits, w) == front + [last];
      UnpackSnoc(front, last, w);
      assert Fits(front + [last], w);
      assert bits == bits[..k] + bits[k..];
    }
  }

  lemma {:induction false} PackFits(bits: seq<bool>, w: nat)
    requires w > 0
    ensures Fits(Pack(bits, w), w)
    decreases |bits|
  {
    hide Value, Digits;
    var n := |bits| - w;
    if n >= 0 {
      PackFits(bits[..n], w);
      ValueDigits(bits[n..]);
    }
  }

  /** Two word sequences that agree outside [from, to) have bit strings that agree outside [5 from, 5 to). */
  lemma {:induction false} UnpackLocal(a: seq<nat>, b: seq<nat>, from: nat, to: nat)
    requires |a| == |b|
    requires forall i :: 0 <= i < |a| && !(from <= i < to) ==> a[i] == b[i]
    ensures |Unpack(a, 5)| == |Unpack(b, 5)| == 5 * |a|
    ensures forall i :: 0 <= i < 5 * |a| && !(5 * from <= i < 5 * to) ==> Unpack(a, 5)[i] == Unpack(b, 5)[i]
  {
    hide Digits;
    if a != [] {
      var n := |a| - 1;
      UnpackLocal(a[..n], b[..n], from, to);
    }
  }

  /** Words are determined by their bit string. */
  lemma {:induction false} PackUnique(words: seq<nat>, w: nat)
    requires w > 0 && Fits(words, w)
    ensures Pack(Unpack(words, w), w) == words
  {
    hide Value, Digits;
    if words != [] {
      var n := |words| - 1;
      var x, last := Unpack(words[..n], w), Digits(words[n], w);
      var bits := Unpack(words, w);
      assert bits == x + last && bits[..|x|] == x && bits[|x|..] == last;
      ValueDigits(last);
      DigitsInjective(Value(last), words[n], w);
      PackUnique(words[..n], w);
      assert words == words[..n] + [words[n]];
    }
  }
}
