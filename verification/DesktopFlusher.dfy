/**
 Reassembly on the desktop: chunks are held as they arrive and flushed to their offsets, in order
 while there is no gap and in any case before the file is finished. Parity recovery and checkpoints
 are absent.
 */
module DesktopFlusher {
  import opened Common
  import opened DesktopFile

  const WORD: nat := 0x1_0000_0000

  /** Bytes held under numbers below n. */
  ghost function Weight(m: map<nat, Bytes>, n: nat): nat {
    if n == 0 then 0 else Weight(m, n - 1) + (if n - 1 in m then |m[n - 1]| else 0)
  }

  lemma {:induction false} WeightSame(m: map<nat, Bytes>, m': map<nat, Bytes>, n: nat)
    requires forall k :: 0 <= k < n ==> (k in m <==> k in m') && (k in m ==> m'[k] == m[k])
    ensures Weight(m', n) == Weight(m, n)
  {
    if n > 0 { WeightSame(m, m', n - 1); }
  }

  lemma {:induction false} WeightDrop(m: map<nat, Bytes>, k: nat, n: nat)
    requires k in m && k < n
    ensures Weight(m - {k}, n) == Weight(m, n) - |m[k]|
  {
    if k == n - 1 { WeightSame(m, m - {k}, n - 1); } else { WeightDrop(m, k, n - 1); }
  }

  lemma WeightAdd(m: map<nat, Bytes>, k: nat, data: Bytes, n: nat)
    requires k !in m && k < n
    ensures Weight(m[k := data], n) == Weight(m, n) + |data|
  {
    WeightDrop(m[k := data], k, n);
    assert m[k := data] - {k} == m;
  }

  lemma {:induction false} WeightNone(n: nat)
    ensures Weight(map[], n) == 0
  {
    if n > 0 { WeightNone(n - 1); }
  }

  // Which numbers are chunks of the file, and which are not.

  function Inside(s: set<nat>, chunks: nat): set<nat> {
    set k | k in s && k < chunks
  }

  predicate Stray(s: set<nat>, chunks: nat) {
    exists k :: k in s && k >= chunks
  }

  /** A chunk of the source under its number, or anything but nothing under a number that is none. */
  predicate Sendable(source: Bytes, chunkSize: nat, chunks: nat, k: nat, payload: Bytes) {
    if k < chunks then IsSlice(source, chunkSize, k, payload) else payload != []
  }

  predicate Geometry(source: Bytes, chunkSize: nat, chunks: nat) {
    chunkSize > 0 && chunks == ChunkCount(|source|, chunkSize)
  }

  /** The chunks that are not pending are in the file, and it is longer than the source exactly with a stray one. */
  ghost predicate Placed(source: Bytes, chunkSize: nat, chunks: nat, received: set<nat>, pending: map<nat, Bytes>, file: Bytes) {
    && Geometry(source, chunkSize, chunks)
    && (forall k :: k in pending ==> Sendable(source, chunkSize, chunks, k, pending[k]))
    && Spooled(file, source, chunkSize, Inside(received - pending.Keys, chunks))
    && (Stray(received - pending.Keys, chunks) <==> |file| > |source|)
  }

  lemma PlaceInside(source: Bytes, chunkSize: nat, chunks: nat, received: set<nat>, pending: map<nat, Bytes>, file: Bytes, k: nat)
    requires Placed(source, chunkSize, chunks, received, pending, file) && k in pending && k in received && k < chunks
    ensures Placed(source, chunkSize, chunks, received, pending - {k}, WriteAt(file, Offset(k, chunkSize), pending[k]))
  {
    hide Spooled, WriteAt, Offset, Geometry, Slice;
    assert IsSlice(source, chunkSize, k, pending[k]);
    var before, after := received - pending.Keys, received - (pending - {k}).Keys;
    SendSpools(file, source, chunkSize, Inside(before, chunks), k);
    assert after == before + {k};
    assert Inside(after, chunks) == Inside(before, chunks) + {k};
  }

  lemma PlaceStray(source: Bytes, chunkSize: nat, chunks: nat, received: set<nat>, pending: map<nat, Bytes>, file: Bytes, k: nat)
    requires Placed(source, chunkSize, chunks, received, pending, file) && k in pending && k in received && k >= chunks
    ensures Placed(source, chunkSize, chunks, received, pending - {k}, WriteAt(file, Offset(k, chunkSize), pending[k]))
  {
    assert Offset(k, chunkSize) >= |source| by {
      CountCovers(|source|, chunkSize);
      Atop(chunks, k, chunkSize);
    }
    hide Spooled, WriteAt, Offset, Geometry, IsSlice;
    assert pending[k] != [];
    var before, after := received - pending.Keys, received - (pending - {k}).Keys;
    BeyondSpools(file, source, chunkSize, Inside(before, chunks), Offset(k, chunkSize), pending[k]);
    assert after == before + {k};
    assert Inside(after, chunks) == Inside(before, chunks);
    assert k in after;
  }

  lemma HoldOne(source: Bytes, chunkSize: nat, chunks: nat, received: set<nat>, pending: map<nat, Bytes>, file: Bytes, k: nat, payload: Bytes)
    requires Placed(source, chunkSize, chunks, received, pending, file) && pending.Keys <= received && k !in received
    requires Sendable(source, chunkSize, chunks, k, payload)
    ensures Placed(source, chunkSize, chunks, received + {k}, pending[k := payload], file)
  {
    hide Spooled, Sendable, Geometry, Inside, Stray;
    assert (received + {k}) - pending[k := payload].Keys == received - pending.Keys;
  }

  predicate Smallest(s: set<nat>, k: nat) {
    k in s && forall j :: j in s ==> k <= j
  }

  lemma {:induction false} SmallestExists(s: set<nat>)
    requires s != {}
    ensures exists k :: Smallest(s, k)
  {
    var k :| k in s;
    var rest := s - {k};
    assert s == rest + {k};
    if rest == {} {
      assert Smallest(s, k);
    } else {
      SmallestExists(rest);
      var m :| Smallest(rest, m);
      assert Smallest(s, if m < k then m else k);
    }
  }

  /** The file once everything held has been written, in ascending order. */
  ghost function Flushed(file: Bytes, pending: map<nat, Bytes>, chunkSize: nat): Bytes
    decreases |pending|
  {
    if pending == map[] then file
    else
      SmallestExists(pending.Keys);
      var k :| Smallest(pending.Keys, k);
      Flushed(WriteAt(file, Offset(k, chunkSize), pending[k]), pending - {k}, chunkSize)
  }

  lemma FlushedNext(file: Bytes, pending: map<nat, Bytes>, chunkSize: nat, k: nat)
    requires Smallest(pending.Keys, k)
    ensures Flushed(WriteAt(file, Offset(k, chunkSize), pending[k]), pending - {k}, chunkSize) == Flushed(file, pending, chunkSize)
  {
    hide WriteAt, Offset;
    assert forall j :: Smallest(pending.Keys, j) ==> j == k;
  }

  lemma FlushedAll(file: Bytes, chunkSize: nat)
    ensures Flushed(file, map[], chunkSize) == file
  {
  }

  /** From one position to another everything is held, and there the first gap is. */
  ghost predicate Contiguous(from: nat, pending: map<nat, Bytes>, to: nat) {
    from <= to && to !in pending && forall k :: from <= k < to ==> k in pending
  }

  /** With the contiguous run written up to `at`, what is held is what was held from there on. */
  ghost predicate RunTo(from: nat, was: map<nat, Bytes>, at: nat, pending: map<nat, Bytes>) {
    && from <= at && (forall k :: from <= k < at ==> k in was)
    && forall k :: k in pending <==> k in was && k >= at
  }

  lemma RunNext(from: nat, was: map<nat, Bytes>, at: nat, pending: map<nat, Bytes>)
    requires RunTo(from, was, at, pending) && at in pending
    ensures Smallest(pending.Keys, at) && RunTo(from, was, at + 1, pending - {at})
  {
  }

  lemma RunEnds(from: nat, was: map<nat, Bytes>, at: nat, pending: map<nat, Bytes>)
    requires RunTo(from, was, at, pending) && at !in pending
    ensures Contiguous(from, was, at) && forall k :: k in pending <==> k in was && k >= at
  {
  }

  /** How an attempt to finish ends; a file with the wrong hash is given up. */
  datatype Outcome = Unfinished | Finished | Mismatch

  class Incoming {
    const chunks: nat
    const chunkSize: nat
    const streamCount: nat
    var receivedSeqs: set<nat>
    var receivedBytes: nat
    var pendingChunkWrites: map<nat, Bytes>
    var pendingChunkBytes: int
    var writeCursorSeq: nat
    var doneSeen: bool
    var doneHash: Option<string> // in lower case, if it looks like a SHA-256
    var file: Bytes
    ghost const source: Bytes
    ghost var genuine: bool // the geometry is the source's, and so was every chunk in range

    constructor (chunks: nat, chunkSize: nat, streamCount: nat, ghost source: Bytes)
      ensures Valid() && (genuine <==> Geometry(source, chunkSize, chunks)) && receivedSeqs == {} && receivedBytes == 0 && !doneSeen
      ensures this.chunks == chunks && this.chunkSize == chunkSize && this.streamCount == streamCount && this.source == source
    {
      this.chunks, this.chunkSize, this.streamCount, this.source := chunks, chunkSize, streamCount, source;
      receivedSeqs, receivedBytes, pendingChunkWrites, pendingChunkBytes := {}, 0, map[], 0;
      writeCursorSeq, doneSeen, doneHash, file, genuine := 0, false, None, [], Geometry(source, chunkSize, chunks);
      new;
      WeightNone(WORD);
      hide Weight;
    }

    ghost predicate Valid()
      reads this
    {
      && pendingChunkBytes == Weight(pendingChunkWrites, WORD)
      && pendingChunkWrites.Keys <= receivedSeqs
      && (forall k :: k in receivedSeqs ==> k < WORD)
      && (forall k: nat :: k < writeCursorSeq ==> k in receivedSeqs && k !in pendingChunkWrites)
      && (genuine ==> Placed(source, chunkSize, chunks, receivedSeqs, pendingChunkWrites, file))
    }

    /** Write one held chunk to its offset. */
    method WriteOne(k: nat)
      requires Valid() && k in pendingChunkWrites
      modifies `pendingChunkWrites, `pendingChunkBytes, `file
      ensures Valid() && pendingChunkWrites == old(pendingChunkWrites) - {k}
      ensures file == WriteAt(old(file), Offset(k, chunkSize), old(pendingChunkWrites)[k])
    {
      hide Weight, Placed, WriteAt;
      WeightDrop(pendingChunkWrites, k, WORD);
      if genuine && k < chunks { PlaceInside(source, chunkSize, chunks, receivedSeqs, pendingChunkWrites, file, k); }
      if genuine && k >= chunks { PlaceStray(source, chunkSize, chunks, receivedSeqs, pendingChunkWrites, file, k); }
      var payload := pendingChunkWrites[k];
      file := WriteAt(file, Offset(k, chunkSize), payload);
      pendingChunkBytes := Max(0, pendingChunkBytes - |payload|);
      pendingChunkWrites := pendingChunkWrites - {k};
    }

    /** `due` says that enough bytes are held or enough time has passed. */
    method FlushIncomingWrites(force: bool, due: bool)
      requires Valid()
      modifies `pendingChunkWrites, `pendingChunkBytes, `file, `writeCursorSeq
      ensures Valid()
      ensures force ==> pendingChunkWrites == map[] && pendingChunkBytes == 0
      ensures !force && !due ==> unchanged(this)
      ensures force || due ==> Contiguous(old(writeCursorSeq), old(pendingChunkWrites), writeCursorSeq)
      ensures due && !force ==> forall k :: k in pendingChunkWrites <==> k in old(pendingChunkWrites) && k >= writeCursorSeq
      ensures Flushed(file, pendingChunkWrites, chunkSize) == old(Flushed(file, pendingChunkWrites, chunkSize))
      ensures force ==> file == old(Flushed(file, pendingChunkWrites, chunkSize))
    {
      hide Weight, Placed, Flushed, WriteAt, Offset;
      WeightNone(WORD);
      FlushedAll(file, chunkSize);
      if |pendingChunkWrites| == 0 {
        assert pendingChunkWrites == map[];
        return;
      }
      if !force && !due { return; }
      FlushRun();
      if !force { return; }
      FlushRest();
      FlushedAll(file, chunkSize);
    }

    /** The loop over what is next in order. */
    method FlushRun()
      requires Valid()
      modifies `pendingChunkWrites, `pendingChunkBytes, `file, `writeCursorSeq
      ensures Valid() && Contiguous(old(writeCursorSeq), old(pendingChunkWrites), writeCursorSeq)
      ensures forall k :: k in pendingChunkWrites <==> k in old(pendingChunkWrites) && k >= writeCursorSeq
      ensures Flushed(file, pendingChunkWrites, chunkSize) == old(Flushed(file, pendingChunkWrites, chunkSize))
    {
      hide Weight, Placed, Flushed, WriteAt, Offset, RunTo, Smallest, Contiguous, Valid;
      ghost var from, was := writeCursorSeq, pendingChunkWrites;
      assert RunTo(from, was, from, was) by { RunStarts(); }
      while writeCursorSeq in pendingChunkWrites
        invariant Valid() && RunTo(from, was, writeCursorSeq, pendingChunkWrites)
        invariant Flushed(file, pendingChunkWrites, chunkSize) == old(Flushed(file, pendingChunkWrites, chunkSize))
        decreases |pendingChunkWrites|
      {
        RunNext(from, was, writeCursorSeq, pendingChunkWrites);
        FlushedNext(file, pendingChunkWrites, chunkSize, writeCursorSeq);
        WriteNext();
      }
      RunEnds(from, was, writeCursorSeq, pendingChunkWrites);
    }

    method WriteNext()
      requires Valid() && writeCursorSeq in pendingChunkWrites
      modifies `pendingChunkWrites, `pendingChunkBytes, `file, `writeCursorSeq
      ensures Valid() && writeCursorSeq == old(writeCursorSeq) + 1
      ensures pendingChunkWrites == old(pendingChunkWrites) - {old(writeCursorSeq)}
      ensures file == WriteAt(old(file), Offset(old(writeCursorSeq), chunkSize), old(pendingChunkWrites)[old(writeCursorSeq)])
    {
      hide Weight, Placed, WriteAt, Offset;
      WriteOne(writeCursorSeq);
      writeCursorSeq := writeCursorSeq + 1;
    }

    lemma RunStarts()
      requires Valid()
      ensures RunTo(writeCursorSeq, pendingChunkWrites, writeCursorSeq, pendingChunkWrites)
    {
      hide Weight, Placed;
    }

    /** What lies beyond gaps, in ascending order. */
    method FlushRest()
      requires Valid()
      modifies `pendingChunkWrites, `pendingChunkBytes, `file
      ensures Valid() && pendingChunkWrites == map[] && pendingChunkBytes == 0
      ensures file == old(Flushed(file, pendingChunkWrites, chunkSize))
    {
      hide Weight, Placed, Flushed, WriteAt, Offset;
      WeightNone(WORD);
      while |pendingChunkWrites| > 0
        invariant Valid()
        invariant Flushed(file, pendingChunkWrites, chunkSize) == old(Flushed(file, pendingChunkWrites, chunkSize))
        decreases |pendingChunkWrites|
      {
        SmallestExists(pendingChunkWrites.Keys);
        var k :| k in pendingChunkWrites.Keys && Smallest(pendingChunkWrites.Keys, k);
        FlushedNext(file, pendingChunkWrites, chunkSize, k);
        WriteOne(k);
      }
      assert pendingChunkWrites == map[];
      FlushedAll(file, chunkSize);
    }

    /** A CHUNK packet of this transfer; its number is not compared with the chunk count. */
    method OnChunk(k: nat, streamId: nat, payload: Bytes, due: bool)
      requires Valid() && k < WORD
      modifies this
      ensures Valid() && doneSeen == old(doneSeen) && doneHash == old(doneHash)
      ensures var taken := streamId == StreamOf(k, streamCount) && k !in old(receivedSeqs);
        && (!taken ==> unchanged(this))
        && (taken ==>
              && receivedSeqs == old(receivedSeqs) + {k}
              && receivedBytes == old(receivedBytes) + |payload|
              && Flushed(file, pendingChunkWrites, chunkSize) == Flushed(old(file), old(pendingChunkWrites)[k := payload], chunkSize)
              && (genuine <==> old(genuine) && Sendable(source, chunkSize, chunks, k, payload)))
    {
      hide Weight, Placed, Sendable, Flushed;
      if streamId != StreamOf(k, streamCount) { return; }
      if k in receivedSeqs { return; }
      WeightAdd(pendingChunkWrites, k, payload, WORD);
      if genuine && Sendable(source, chunkSize, chunks, k, payload) {
        HoldOne(source, chunkSize, chunks, receivedSeqs, pendingChunkWrites, file, k, payload);
      }
      genuine := genuine && Sendable(source, chunkSize, chunks, k, payload);
      receivedSeqs := receivedSeqs + {k};
      pendingChunkWrites := pendingChunkWrites[k := payload];
      pendingChunkBytes := pendingChunkBytes + |payload|;
      receivedBytes := receivedBytes + |payload|;
      FlushIncomingWrites(false, due);
    }

    method OnDone(hash: Option<string>, due: bool)
      requires Valid()
      modifies `doneSeen, `doneHash, `pendingChunkWrites, `pendingChunkBytes, `file, `writeCursorSeq
      ensures Valid() && doneSeen && doneHash == hash
      ensures Flushed(file, pendingChunkWrites, chunkSize) == old(Flushed(file, pendingChunkWrites, chunkSize))
    {
      hide Weight, Placed, Flushed;
      doneSeen := true;
      doneHash := hash;
      FlushIncomingWrites(false, due);
    }

    /**
     Whatever the order of arrival and the duplicates: when the file is finished nothing is pending.
     With the source's chunks the count is right for the whole file exactly if no number was out of
     range, and then the file is exactly the source. A hash of the source in DONE excludes every
     other file.
     */
    method MaybeFinalize(sha: Bytes -> string) returns (r: Outcome)
      requires Valid()
      modifies `pendingChunkWrites, `pendingChunkBytes, `file, `writeCursorSeq
      ensures Valid()
      ensures r.Unfinished? <==> !doneSeen || |receivedSeqs| != chunks
      ensures r.Mismatch? <==> doneSeen && |receivedSeqs| == chunks && doneHash.Some? && sha(file) != doneHash.value
      ensures doneSeen ==> pendingChunkWrites == map[] && pendingChunkBytes == 0
      ensures doneSeen ==> file == old(Flushed(file, pendingChunkWrites, chunkSize))
      ensures !r.Unfinished? && genuine ==>
        && (file == source <==> !Stray(receivedSeqs, chunks))
        && (file == source <==> forall k: nat :: k in receivedSeqs <==> k < chunks)
      ensures r.Finished? && doneHash == Some(sha(source)) && OnlyHash(sha, source) ==> file == source
    {
      hide Weight, Placed, Geometry, Flushed;
      if !doneSeen { return Unfinished; }
      FlushIncomingWrites(true, true);
      if |receivedSeqs| != chunks { return Unfinished; }
      if genuine { WholeFile(source, chunkSize, chunks, receivedSeqs, file); }
      if doneHash.Some? && sha(file) != doneHash.value { return Mismatch; }
      r := Finished;
    }
  }

  /** No other content has the hash of `source`. */
  ghost predicate OnlyHash(sha: Bytes -> string, source: Bytes) {
    forall x: Bytes :: sha(x) == sha(source) ==> x == source
  }

  function StreamOf(k: nat, streamCount: nat): nat {
    if streamCount > 1 then k % streamCount else 0
  }

  lemma WholeFile(source: Bytes, chunkSize: nat, chunks: nat, received: set<nat>, file: Bytes)
    requires Placed(source, chunkSize, chunks, received, map[], file) && |received| == chunks
    ensures file == source <==> !Stray(received, chunks)
    ensures !Stray(received, chunks) <==> forall k: nat :: k in received <==> k < chunks
  {
    hide Spooled, Offset, ChunkCount, IsSlice, Slice, Sendable;
    var none: map<nat, Bytes> := map[];
    assert received - none.Keys == received;
    if !Stray(received, chunks) {
      assert Inside(received, chunks) == received;
      AllOf(received, chunks);
      SpooledPrefix(file, source, chunkSize, received, chunks);
      CountCovers(|source|, chunkSize);
      assert file[..|source|] == file && source[..|source|] == source;
    }
  }

  lemma Atop(a: nat, b: nat, k: nat)
    requires a <= b
    ensures Offset(a, k) <= Offset(b, k)
  {
  }

  /** n numbers below n are all of them. */
  lemma {:induction false} AllOf(s: set<nat>, n: nat)
    requires |s| == n && forall k :: k in s ==> k < n
    ensures forall k: nat :: k < n ==> k in s
  {
    if n > 0 {
      var rest := s - {n - 1};
      if n - 1 in s {
        AllOf(rest, n - 1);
        assert s == rest + {n - 1};
      } else {
        Crowded(s, n - 1);
      }
    }
  }

  lemma {:induction false} Crowded(s: set<nat>, n: nat)
    requires forall k :: k in s ==> k < n
    ensures |s| <= n
  {
    if n == 0 {
      assert s == {};
    } else {
      Crowded(s - {n - 1}, n - 1);
    }
  }

  // The out-of-range number is not only a possibility of the contract.

  /** The numbers below n without one. */
  ghost function Without(n: nat, missing: nat): (s: set<nat>)
    ensures forall k: nat :: k in s <==> k < n && k != missing
    ensures |s| == if missing < n then n - 1 else n
  {
    if n == 0 then {}
    else if n - 1 == missing then Without(n - 1, missing)
    else Without(n - 1, missing) + {n - 1}
  }

  method SendOne(t: Incoming, source: Bytes, k: nat)
    requires t.Valid() && t.genuine && t.source == source && t.streamCount <= 1 && k !in t.receivedSeqs
    requires k < t.chunks <= WORD && t.chunks == ChunkCountOf(source, t.chunkSize)
    modifies t
    ensures t.Valid() && t.genuine && t.receivedSeqs == old(t.receivedSeqs) + {k} && t.doneSeen == old(t.doneSeen)
  {
    hide Offset, Incoming.Valid, Slice, ChunkCountOf;
    InRange(source, t.chunkSize, k);
    t.OnChunk(k, 0, Slice(source, t.chunkSize, k), false);
  }

  /** All chunks of the source but one. */
  method SendOthers(t: Incoming, source: Bytes, missing: nat)
    requires t.Valid() && t.genuine && t.receivedSeqs == {} && t.source == source && t.streamCount <= 1
    requires t.chunks <= WORD && t.chunks == ChunkCountOf(source, t.chunkSize)
    modifies t
    ensures t.Valid() && t.genuine && t.receivedSeqs == Without(t.chunks, missing) && t.doneSeen == old(t.doneSeen)
  {
    hide Incoming.Valid, ChunkCountOf;
    for k := 0 to t.chunks
      invariant t.Valid() && t.genuine && t.receivedSeqs == Without(k, missing) && t.doneSeen == old(t.doneSeen)
    {
      if k != missing { SendOne(t, source, k); }
    }
  }

  function ChunkCountOf(source: Bytes, chunkSize: nat): nat {
    if chunkSize == 0 then 0 else ChunkCount(|source|, chunkSize)
  }

  lemma InRange(source: Bytes, chunkSize: nat, k: nat)
    requires k < ChunkCountOf(source, chunkSize)
    ensures Offset(k, chunkSize) < |source|
  {
    CountCovers(|source|, chunkSize);
  }

  /**
   For every file, every chunk of it that is missing and every number out of range: a non-empty chunk
   under that number makes the receiver finish with a file that is not the source, when DONE brings
   no hash.
   */
  method FinishWithStray(source: Bytes, chunkSize: nat, missing: nat, stray: nat, payload: Bytes, sha: Bytes -> string)
    returns (r: Outcome, file: Bytes)
    requires chunkSize > 0 && missing < ChunkCount(|source|, chunkSize) <= stray < WORD && payload != []
    ensures r.Finished? && file != source
  {
    hide ChunkCount, Offset, Incoming.Valid, Placed, Weight, Slice, OnlyHash;
    var t := new Incoming(ChunkCount(|source|, chunkSize), chunkSize, 1, source);
    SendOthers(t, source, missing);
    t.OnChunk(stray, 0, payload, false);
    assert stray in t.receivedSeqs;
    t.OnDone(None, false);
    r := t.MaybeFinalize(sha);
    file := t.file;
  }
}
