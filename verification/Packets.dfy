/**
 The encrypted packet: magic number, version, type, an eight-byte counter and the ciphertext. The cipher
 is any pair of functions over nonce, associated data and text.
 */
module Packets {
  import opened Common
  import opened Endian

  const U64_MAX: nat := 0xffff_ffff_ffff_ffff

  const MAGIC: Bytes := [0x51, 0x32, 0x50, 0x53]
  const VERSION: Byte := 2
  const ENCRYPTED_TYPE: Byte := 17

  /** AES-GCM under one key: nonce, associated data and text. */
  datatype Cipher = Cipher(
    encrypt: (Bytes, Bytes, Bytes) -> Option<Bytes>,
    decrypt: (Bytes, Bytes, Bytes) -> Option<Bytes>)

  /** Decryption undoes encryption, and the tag makes the ciphertext 16 bytes longer than the text. */
  ghost predicate Inverse(c: Cipher) {
    forall nonce: Bytes, aad: Bytes, plain: Bytes :: c.encrypt(nonce, aad, plain).Some? ==>
      && |c.encrypt(nonce, aad, plain).value| == |plain| + 16
      && c.decrypt(nonce, aad, c.encrypt(nonce, aad, plain).value) == Some(plain)
  }

  function CounterBytes(c: nat): (b: Bytes)
    ensures |b| == 8
  {
    ToBytes(c, 8)
  }

  function CounterOf(packet: Bytes): nat
    requires |packet| >= 30
  {
    BigEndian(packet[6..14])
  }

  /** One direction's prefix and the counter: a value used for one packet only. */
  function Nonce(prefix: Bytes, counter: nat): Bytes {
    prefix + CounterBytes(counter)
  }

  predicate Headed(packet: Bytes) {
    |packet| >= 30 && packet[..4] == MAGIC && packet[4] == VERSION && packet[5] == ENCRYPTED_TYPE
  }

  function Packed(counter: nat, ciphertext: Bytes): Bytes {
    MAGIC + [VERSION, ENCRYPTED_TYPE] + CounterBytes(counter) + ciphertext
  }

  lemma CounterRange(packet: Bytes)
    requires |packet| >= 30
    ensures CounterOf(packet) <= U64_MAX
  {
    WrittenBack(packet[6..14]);
    Sizes();
  }

  /** The eight bytes of a counter are read back as the counter. */
  lemma CounterRoundTrip(c: nat)
    requires c <= U64_MAX
    ensures BigEndian(CounterBytes(c)) == c
  {
    Sizes();
    ReadBack(c, 8);
  }

  /** The packet byte by byte: it is well formed and carries its counter and its ciphertext. */
  lemma PacketLayout(c: nat, ciphertext: Bytes, packet: Bytes)
    requires c <= 0xffff_ffff_ffff_ffff && |ciphertext| >= 16
    requires packet == [0x51, 0x32, 0x50, 0x53, 2, 17,
      c / 0x100_0000_0000_0000 % 256, c / 0x1_0000_0000_0000 % 256, c / 0x100_0000_0000 % 256, c / 0x1_0000_0000 % 256,
      c / 0x100_0000 % 256, c / 0x1_0000 % 256, c / 0x100 % 256, c % 256] + ciphertext
    ensures Headed(packet) && CounterOf(packet) == c && packet[14..] == ciphertext
    ensures packet == Packed(c, ciphertext)
  {
    hide BigEndian, ToBytes;
    CounterRoundTrip(c);
    EightBytes(c);
    assert packet[6..14] == CounterBytes(c);
  }

  lemma PackedCarries(c: nat, ciphertext: Bytes)
    requires c <= U64_MAX && |ciphertext| >= 16
    ensures Headed(Packed(c, ciphertext)) && CounterOf(Packed(c, ciphertext)) == c
    ensures Packed(c, ciphertext)[14..] == ciphertext
  {
    CounterRoundTrip(c);
    assert Packed(c, ciphertext)[6..14] == CounterBytes(c);
  }

  /** And it is the one well-formed packet that does. */
  lemma PackedUnique(packet: Bytes)
    requires Headed(packet)
    ensures packet == Packed(CounterOf(packet), packet[14..])
  {
    WrittenBack(packet[6..14]);
    assert packet == packet[..4] + [packet[4], packet[5]] + packet[6..14] + packet[14..];
  }

  /** No nonce serves two counters, and none serves both directions. */
  lemma NonceOnce(prefix: Bytes, other: Bytes, c: nat, d: nat)
    requires |prefix| == |other| && c <= U64_MAX && d <= U64_MAX
    ensures Nonce(prefix, c) == Nonce(other, d) <==> prefix == other && c == d
  {
    CounterRoundTrip(c);
    CounterRoundTrip(d);
    if Nonce(prefix, c) == Nonce(other, d) {
      assert Nonce(prefix, c)[..|prefix|] == prefix && Nonce(other, d)[..|prefix|] == other;
      assert Nonce(prefix, c)[|prefix|..] == CounterBytes(c) && Nonce(other, d)[|prefix|..] == CounterBytes(d);
    }
  }
}
