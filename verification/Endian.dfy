/** Numbers as bytes, the most significant first, as every packet and frame carries them. */
module Endian {
  import opened Common

  function Power256(k: nat): (p: nat)
    ensures p > 0
  {
    if k == 0 then 1 else 256 * Power256(k - 1)
  }

  /** The lowest k bytes of a number. */
  function ToBytes(n: nat, k: nat): (b: Bytes)
    ensures |b| == k
  {
    if k == 0 then [] else ToBytes(n / 256, k - 1) + [n % 256]
  }

  function BigEndian(bytes: Bytes): nat {
    if bytes == [] then 0 else BigEndian(bytes[..|bytes| - 1]) * 256 + bytes[|bytes| - 1]
  }

  /** A number that fits is read back as itself. */
  lemma {:induction false} ReadBack(n: nat, k: nat)
    requires n < Power256(k)
    ensures BigEndian(ToBytes(n, k)) == n
  {
    if k > 0 {
      ReadBack(n / 256, k - 1);
      assert ToBytes(n, k)[..k - 1] == ToBytes(n / 256, k - 1);
    }
  }

  /** Bytes are the only ones of their length for the number they are read as. */
  lemma {:induction false} WrittenBack(bytes: Bytes)
    ensures BigEndian(bytes) < Power256(|bytes|)
    ensures ToBytes(BigEndian(bytes), |bytes|) == bytes
  {
    if bytes != [] {
      var front, last := bytes[..|bytes| - 1], bytes[|bytes| - 1];
      WrittenBack(front);
      assert bytes == front + [last];
      assert BigEndian(bytes) / 256 == BigEndian(front) && BigEndian(bytes) % 256 == last as int;
    }
  }

  lemma SameValue(a: Bytes, b: Bytes)
    requires |a| == |b| && BigEndian(a) == BigEndian(b)
    ensures a == b
  {
    WrittenBack(a);
    WrittenBack(b);
  }

  lemma Sizes()
    ensures Power256(2) == 0x1_0000 && Power256(4) == 0x1_0000_0000 && Power256(8) == 0x1_0000_0000_0000_0000
  {
    assert Power256(3) == 0x100_0000;
    assert Power256(6) == 0x1_0000_0000_0000;
  }

  /** 16 bits, byte by byte. */
  lemma TwoBytes(n: nat)
    ensures ToBytes(n, 2) == [n / 0x100 % 256, n % 256]
  {
    TwoMore(n, 0);
  }

  lemma TwoMore(n: nat, k: nat)
    ensures ToBytes(n, k + 2) == ToBytes(n / 0x1_0000, k) + [n / 0x100 % 256, n % 256]
  {
    assert ToBytes(n / 256, k + 1) == ToBytes(n / 256 / 256, k) + [n / 256 % 256];
    assert n / 256 / 256 == n / 0x1_0000;
  }

  /** 32 bits, byte by byte. */
  lemma FourBytes(n: nat)
    ensures ToBytes(n, 4) == [n / 0x100_0000 % 256, n / 0x1_0000 % 256, n / 0x100 % 256, n % 256]
  {
    hide ToBytes;
    TwoMore(n, 2);
    TwoBytes(n / 0x1_0000);
    assert n / 0x1_0000 / 0x100 == n / 0x100_0000;
  }

  /** 64 bits, byte by byte. */
  lemma EightBytes(n: nat)
    ensures ToBytes(n, 8) == [
      n / 0x100_0000_0000_0000 % 256, n / 0x1_0000_0000_0000 % 256, n / 0x100_0000_0000 % 256, n / 0x1_0000_0000 % 256,
      n / 0x100_0000 % 256, n / 0x1_0000 % 256, n / 0x100 % 256, n % 256]
  {
    hide ToBytes;
    var x, y := n / 0x1_0000, n / 0x1_0000_0000;
    TwoMore(n, 6);
    TwoMore(x, 4);
    FourBytes(y);
    assert x / 0x1_0000 == y && x / 0x100 == n / 0x100_0000;
    assert y / 0x100 == n / 0x100_0000_0000 && y / 0x1_0000 == n / 0x1_0000_0000_0000;
    assert y / 0x100_0000 == n / 0x100_0000_0000_0000;
  }
}
