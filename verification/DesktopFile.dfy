/** A file written chunk by chunk at the chunks' offsets, as the desktop sender's spool and the receiver's file are. */
module DesktopFile {
  import opened Common

  /** Where chunk n starts. */
  function Offset(n: nat, chunkSize: nat): nat {
    n * chunkSize
  }

  /** A write beyond the end leaves a gap of zeros; writing nothing changes nothing. */
  function WriteAt(file: Bytes, offset: nat, data: Bytes): (r: Bytes)
    ensures data == [] ==> r == file
    ensures data != [] ==> |r| == Max(|file|, offset + |data|) && r[offset..offset + |data|] == data
    ensures forall i :: 0 <= i < |r| && !(offset <= i < offset + |data|) ==> r[i] == if i < |file| then file[i] else 0
  {
    if data == [] then file
    else
      var padded := if |file| < offset then file + seq(offset - |file|, _ => 0) else file;
      padded[..offset] + data + (if offset + |data| <= |padded| then padded[offset + |data|..] else [])
  }

  function ReadAt(file: Bytes, offset: nat, length: nat): Bytes {
    if offset >= |file| then [] else file[offset..Min(offset + length, |file|)]
  }

  /** What the transfer's metadata says about the length of chunk n. */
  function ChunkLength(size: nat, chunkSize: nat, n: nat): (length: nat)
    ensures Offset(n, chunkSize) >= size ==> length == 0
    ensures Offset(n, chunkSize) + chunkSize <= size ==> length == chunkSize
    ensures Offset(n, chunkSize) < size < Offset(n, chunkSize) + chunkSize ==> Offset(n, chunkSize) + length == size
  {
    Min(chunkSize, Max(0, size - Offset(n, chunkSize)))
  }

  function Slice(source: Bytes, chunkSize: nat, n: nat): (b: Bytes)
    requires Offset(n, chunkSize) < |source|
    ensures Offset(n, chunkSize) + |b| == Min(Offset(n + 1, chunkSize), |source|)
  {
    source[Offset(n, chunkSize)..Min(Offset(n + 1, chunkSize), |source|)]
  }

  predicate IsSlice(source: Bytes, chunkSize: nat, k: nat, payload: Bytes) {
    Offset(k, chunkSize) < |source| && payload == Slice(source, chunkSize, k)
  }

  /** Every sent chunk is in the file as the source's slice. */
  ghost predicate Spooled(file: Bytes, source: Bytes, chunkSize: nat, sent: set<nat>) {
    forall n :: n in sent ==>
      && Offset(n, chunkSize) < |source|
      && Min(Offset(n + 1, chunkSize), |source|) <= |file|
      && file[Offset(n, chunkSize)..Min(Offset(n + 1, chunkSize), |source|)] == Slice(source, chunkSize, n)
  }

  lemma Scale(a: nat, b: nat, k: nat)
    requires a < b
    ensures (a + 1) * k <= b * k
  {
  }

  lemma SendSpools(file: Bytes, source: Bytes, chunkSize: nat, sent: set<nat>, n: nat)
    requires Spooled(file, source, chunkSize, sent) && Offset(n, chunkSize) < |source|
    ensures Spooled(WriteAt(file, Offset(n, chunkSize), Slice(source, chunkSize, n)), source, chunkSize, sent + {n})
  {
    var offset, data := Offset(n, chunkSize), Slice(source, chunkSize, n);
    var file' := WriteAt(file, offset, data);
    forall k | k in sent + {n}
      ensures Offset(k, chunkSize) < |source| && Min(Offset(k + 1, chunkSize), |source|) <= |file'|
      ensures file'[Offset(k, chunkSize)..Min(Offset(k + 1, chunkSize), |source|)] == Slice(source, chunkSize, k)
    {
      if k != n { WriteApart(file, source, chunkSize, n, k); }
    }
  }

  /** Chunks of the promised length do not overlap. */
  lemma WriteApart(file: Bytes, source: Bytes, chunkSize: nat, n: nat, k: nat)
    requires Offset(n, chunkSize) < |source| && Offset(k, chunkSize) < |source| && k != n
    requires Min(Offset(k + 1, chunkSize), |source|) <= |file|
    ensures var file' := WriteAt(file, Offset(n, chunkSize), Slice(source, chunkSize, n));
      Min(Offset(k + 1, chunkSize), |source|) <= |file'| &&
      file'[Offset(k, chunkSize)..Min(Offset(k + 1, chunkSize), |source|)] == file[Offset(k, chunkSize)..Min(Offset(k + 1, chunkSize), |source|)]
  {
    if k < n { Scale(k, n, chunkSize); } else { Scale(n, k, chunkSize); }
  }

  /** A write behind the source leaves every chunk in place. */
  lemma BeyondSpools(file: Bytes, source: Bytes, chunkSize: nat, sent: set<nat>, offset: nat, data: Bytes)
    requires Spooled(file, source, chunkSize, sent) && offset >= |source|
    ensures Spooled(WriteAt(file, offset, data), source, chunkSize, sent)
  {
    hide Offset, Slice;
    var file' := WriteAt(file, offset, data);
    forall n | n in sent
      ensures Min(Offset(n + 1, chunkSize), |source|) <= |file'|
      ensures file'[Offset(n, chunkSize)..Min(Offset(n + 1, chunkSize), |source|)] == Slice(source, chunkSize, n)
    {
      var to := Min(Offset(n + 1, chunkSize), |source|);
      assert file'[..to] == file[..to];
      assert file'[Offset(n, chunkSize)..to] == file'[..to][Offset(n, chunkSize)..];
    }
  }

  function ChunkCount(size: nat, chunkSize: nat): nat
    requires chunkSize > 0
  {
    (size + chunkSize - 1) / chunkSize
  }

  /** A file of all chunks is the source. */
  lemma {:induction false} SpooledPrefix(file: Bytes, source: Bytes, chunkSize: nat, sent: set<nat>, k: nat)
    requires Spooled(file, source, chunkSize, sent)
    requires forall n: nat :: n < k ==> n in sent
    ensures Min(Offset(k, chunkSize), |source|) <= |file|
    ensures file[..Min(Offset(k, chunkSize), |source|)] == source[..Min(Offset(k, chunkSize), |source|)]
  {
    if k > 0 {
      SpooledPrefix(file, source, chunkSize, sent, k - 1);
      var a, b := Offset(k - 1, chunkSize), Min(Offset(k, chunkSize), |source|);
      assert k - 1 in sent;
      assert a + chunkSize == Offset(k, chunkSize);
      assert file[..b] == file[..a] + file[a..b];
      assert source[..b] == source[..a] + source[a..b];
    }
  }

  lemma CountCovers(size: nat, chunkSize: nat)
    requires chunkSize > 0
    ensures Offset(ChunkCount(size, chunkSize), chunkSize) >= size
    ensures forall k: nat :: k < ChunkCount(size, chunkSize) ==> Offset(k, chunkSize) < size
  {
    var n := ChunkCount(size, chunkSize);
    forall k: nat | k < n ensures Offset(k, chunkSize) < size {
      if k + 1 < n { Scale(k, n - 1, chunkSize); }
    }
  }
}
