/** Length-prefixed frames on a stream: four big-endian bytes of length, then that many bytes. */
module Frames {
  import opened Common
  import opened Endian

  function Frame(bytes: Bytes): Bytes {
    ToBytes(|bytes|, 4) + bytes
  }

  /** How many more bytes a reader will take, given what it has. */
  function Needed(got: Bytes): int {
    if |got| < 4 then 4 - |got| else 4 + BigEndian(got[..4]) - |got|
  }

  /** Reading a frame off a stream that starts with it takes exactly the frame. */
  lemma FrameReading(bytes: Bytes, got: Bytes)
    requires |bytes| < 0x1_0000_0000 && got <= Frame(bytes)
    ensures 0 <= Needed(got) <= |Frame(bytes)| - |got|
    ensures Needed(got) == 0 <==> got == Frame(bytes)
    ensures got == Frame(bytes) ==> got[4..] == bytes
  {
    hide ToBytes, BigEndian;
    Sizes();
    ReadBack(|bytes|, 4);
    if |got| >= 4 { assert got[..4] == ToBytes(|bytes|, 4); }
  }

  /** A frame byte by byte. */
  lemma FrameLayout(bytes: Bytes)
    ensures var n := |bytes|;
      Frame(bytes) == [n / 0x100_0000 % 256, n / 0x1_0000 % 256, n / 0x100 % 256, n % 256] + bytes
  {
    FourBytes(|bytes|);
  }

  /**
   read_frame with a limit: the first frame of the stream and what follows it, if the stream starts
   with a whole frame within the limit, and nothing otherwise.
   */
  method ReadFrame(stream: Bytes, limit: nat) returns (r: Option<(Bytes, Bytes)>)
    ensures r.Some? ==> |r.value.0| <= limit && stream == Frame(r.value.0) + r.value.1
    ensures r.None? ==> forall bytes, rest | |bytes| <= limit && |bytes| < 0x1_0000_0000 :: stream != Frame(bytes) + rest
  {
    hide ToBytes, BigEndian, Frame;
    forall bytes, rest | |bytes| < 0x1_0000_0000 && stream == Frame(bytes) + rest
      ensures |stream| >= 4 + |bytes| && BigEndian(stream[..4]) == |bytes|
    {
      FrameStart(stream, bytes, rest);
    }
    if |stream| < 4 { return None; }
    var size := BigEndian(stream[..4]);
    if size > limit || |stream| < 4 + size { return None; }
    FrameCut(stream, size);
    r := Some((stream[4..4 + size], stream[4 + size..]));
  }

  lemma FrameStart(stream: Bytes, bytes: Bytes, rest: Bytes)
    requires |bytes| < 0x1_0000_0000 && stream == Frame(bytes) + rest
    ensures |stream| >= 4 + |bytes| && BigEndian(stream[..4]) == |bytes|
  {
    hide ToBytes, BigEndian;
    Sizes();
    ReadBack(|bytes|, 4);
    assert stream[..4] == ToBytes(|bytes|, 4);
  }

  lemma FrameCut(stream: Bytes, size: nat)
    requires |stream| >= 4 + size && BigEndian(stream[..4]) == size
    ensures stream == Frame(stream[4..4 + size]) + stream[4 + size..]
  {
    hide ToBytes, BigEndian;
    WrittenBack(stream[..4]);
  }
}
