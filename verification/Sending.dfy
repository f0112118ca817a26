/**
 Sending one open file to any peer, from hashing to the receipt. The peer is a function of the bytes it
 has been sent: nothing about it is trusted.
 */
module Sending {
  import opened Common
  import opened Frames
  import opened Manifests
  import opened Sender

  datatype TransferResult = TransferResult(sourceBytes: nat, payloadBytes: nat, reusedBytes: nat, digest: string)

  /** What comes back after the offer, and what comes after the payload, up to the end of the stream. */
  datatype Peer = Peer(answer: Bytes -> Bytes, closing: Bytes -> Bytes)

  /** The manifest that hashing a file makes. */
  function Offer(h: Hasher, file: Bytes, name: string): (m: Manifest)
    ensures |m.blocks| == BlockCount(m.size)
  {
    Manifest(DisplayName(name), 3, |file|, BLOCK, h(file),
      seq(BlockCount(|file|), i requires 0 <= i < BlockCount(|file|) => h(Block(file, |file|, i))))
  }

  function OfferFrame(m: Manifest): Bytes {
    Frame(Utf8(Json(m)))
  }

  /** A resume map for the manifest: one entry for each block, each 0 or 1. */
  predicate MapFor(m: Manifest, wanted: Bytes) {
    |wanted| == |m.blocks| && forall i :: 0 <= i < |wanted| ==> wanted[i] <= 1
  }

  /**
   The peer answered the offer with a framed resume map, every block it asked for could be read and was
   unchanged, and everything else it ever sent is the digest.
   */
  ghost predicate Served(h: Hasher, m: Manifest, source: Reader, peer: Peer, wanted: Bytes, rest: Bytes)
    requires |m.blocks| == BlockCount(m.size)
  {
    && MapFor(m, wanted)
    && peer.answer(OfferFrame(m)) == Frame(wanted) + rest
    && Serial(h, m, wanted, source, 0).error.None?
    && rest + peer.closing(OfferFrame(m) + Serial(h, m, wanted, source, 0).bytes) == Utf8(m.digest)
  }

  ghost predicate NoProperMap(m: Manifest, peer: Peer) {
    forall w: Bytes, t: Bytes :: MapFor(m, w) ==> peer.answer(OfferFrame(m)) != Frame(w) + t
  }

  /**
   Success is reported exactly when the file could be offered and the peer served it: with any other
   map, any other receipt, a source that has changed, or a stream that ends early, sending fails. Until a
   proper map has come, nothing but the offer is sent.
   */
  method SendFile(stream: Stream, h: Hasher, file: Bytes, isFile: bool, name: string, source: Reader, peer: Peer)
    returns (r: Result<TransferResult, string>, ghost wanted: Bytes, ghost rest: Bytes)
    requires stream.sent == []
    modifies stream
    ensures r.Ok? ==> isFile && |file| <= MAX_BLOCKS * BLOCK && Served(h, Offer(h, file, name), source, peer, wanted, rest)
    ensures r.Ok? ==> stream.sent == OfferFrame(Offer(h, file, name)) + Serial(h, Offer(h, file, name), wanted, source, 0).bytes
    ensures r.Ok? ==> r.value == TransferResult(
      |file|, Sum(Selected(|file|, wanted, 1)), Sum(Selected(|file|, wanted, 0)), h(file))
    ensures r.Err? && isFile && |file| <= MAX_BLOCKS * BLOCK ==>
      forall w: Bytes, t: Bytes :: !Served(h, Offer(h, file, name), source, peer, w, t)
    ensures !(isFile && |file| <= MAX_BLOCKS * BLOCK) ==> stream.sent == []
    ensures isFile && |file| <= MAX_BLOCKS * BLOCK && NoProperMap(Offer(h, file, name), peer) ==>
      stream.sent == OfferFrame(Offer(h, file, name))
  {
    hide DisplayName, Utf8, Utf8Length, Json, Valid, Describes, Frame, Serial, Selected, Sum, BlockCount, ValidHash;
    wanted, rest := [], [];
    var made := ManifestFile(h, file, isFile, name);
    if made.Err? { return Err(made.error), wanted, rest; }
    var m := made.value;
    OfferMade(h, m, file, name);
    stream.Write(OfferFrame(m));
    assert stream.sent == OfferFrame(m);
    var frame := ReadFrame(peer.answer(stream.sent), MAX_BLOCKS);
    if frame.None? {
      NoMap(h, m, source, peer);
      return Err("no resume map"), wanted, rest;
    }
    var missing, after := frame.value.0, frame.value.1;
    wanted, rest := missing, after;
    OneMap(h, m, source, peer, wanted, rest);
    if |missing| != |m.blocks| { return Err("invalid resume map"), wanted, rest; }
    if exists i :: 0 <= i < |missing| && missing[i] > 1 { return Err("invalid resume bit"), wanted, rest; }
    var error, payloadBytes := SendSerial(stream, h, m, missing, source);
    if error.Some? { return Err(error.value), wanted, rest; }
    SentLength(h, m, wanted, source);
    var receipt := after + peer.closing(stream.sent);
    DigestAscii(m.digest);
    if |receipt| > 64 { return Err("receipt exceeds limit"), wanted, rest; }
    if receipt != Utf8(m.digest) { return Err("receiver did not verify completion"), wanted, rest; }
    r := Ok(TransferResult(m.size, payloadBytes, m.size - payloadBytes, m.digest));
  }

  lemma OfferMade(h: Hasher, m: Manifest, file: Bytes, name: string)
    requires Valid(m) && Describes(h, m, file) && m.name == DisplayName(name)
    ensures m == Offer(h, file, name) && |m.blocks| <= MAX_BLOCKS && |m.blocks| == BlockCount(m.size) && ValidHash(m.digest)
  {
    hide DisplayName, Utf8Length, ValidHash;
    FramesFit(m);
    assert m.blocks == Offer(h, file, name).blocks;
  }

  /** An answer that starts with no frame within the limit is no service. */
  lemma NoMap(h: Hasher, m: Manifest, source: Reader, peer: Peer)
    requires |m.blocks| == BlockCount(m.size) && |m.blocks| <= MAX_BLOCKS
    requires forall w: Bytes, t: Bytes | |w| <= MAX_BLOCKS && |w| < 0x1_0000_0000 :: peer.answer(OfferFrame(m)) != Frame(w) + t
    ensures NoProperMap(m, peer)
    ensures forall w: Bytes, t: Bytes :: !Served(h, m, source, peer, w, t)
  {
    hide Frame, Serial, BlockCount;
  }

  /** The answer holds at most one map, so the peer serves the file with that one or not at all. */
  lemma OneMap(h: Hasher, m: Manifest, source: Reader, peer: Peer, wanted: Bytes, rest: Bytes)
    requires |m.blocks| == BlockCount(m.size) && |m.blocks| <= MAX_BLOCKS && |wanted| <= MAX_BLOCKS
    requires peer.answer(OfferFrame(m)) == Frame(wanted) + rest
    ensures forall w: Bytes, t: Bytes :: MapFor(m, w) && peer.answer(OfferFrame(m)) == Frame(w) + t ==> w == wanted && t == rest
    ensures forall w: Bytes, t: Bytes :: Served(h, m, source, peer, w, t) ==> w == wanted && t == rest
  {
    hide Serial, BlockCount;
    forall w: Bytes, t: Bytes | MapFor(m, w) && peer.answer(OfferFrame(m)) == Frame(w) + t
      ensures w == wanted && t == rest
    {
      SameFrame(w, t, wanted, rest);
    }
  }

  lemma SameFrame(a: Bytes, s: Bytes, b: Bytes, t: Bytes)
    requires |a| <= MAX_BLOCKS && |b| <= MAX_BLOCKS && Frame(a) + s == Frame(b) + t
    ensures a == b && s == t
  {
    var stream := Frame(a) + s;
    FrameStart(stream, a, s);
    FrameStart(stream, b, t);
    assert stream[4..4 + |a|] == a && stream[4..4 + |b|] == b;
    assert stream[4 + |a|..] == s && stream[4 + |b|..] == t;
  }

  lemma SentLength(h: Hasher, m: Manifest, wanted: Bytes, source: Reader)
    requires |m.blocks| == BlockCount(m.size) && MapFor(m, wanted) && Serial(h, m, wanted, source, 0).error.None?
    ensures |Serial(h, m, wanted, source, 0).bytes| == Sum(Selected(m.size, wanted, 1))
    ensures m.size == |Serial(h, m, wanted, source, 0).bytes| + Sum(Selected(m.size, wanted, 0))
  {
    hide Serial, BlockCount;
    SerialLength(h, m, wanted, source, 0);
    assert Selected(m.size, wanted, 1)[0..] == Selected(m.size, wanted, 1);
    Accounting(m.size, wanted);
  }
}
