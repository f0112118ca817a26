/**
 From the file picked in the window to the file on the other desktop: the preload script's chunks, handed to
 the receiver in any order and any number of times, become the same file.
 */
module DesktopDelivery {
  import opened Common
  import opened DesktopFile
  import opened DesktopFlusher
  import Rechunker

  /** The chunks that leave the sending window for a file read in these pieces. */
  method Cut(pieces: seq<Bytes>) returns (entries: seq<Rechunker.Entry>, streams: nat)
    ensures streams == Rechunker.RecommendedStreamCount(|Concat(pieces)|)
    ensures entries == Rechunker.Entries(Concat(pieces), streams)
  {
    hide Rechunker.Entries, Concat;
    var sender := new Rechunker.FileSender(|Concat(pieces)|);
    sender.Send(pieces);
    entries, streams := Concat(sender.batches), sender.streamCount;
  }

  /** The sender's chunks are the receiver's: same number, same place, same stream. */
  lemma EntryFits(content: Bytes, streams: nat, i: nat)
    requires streams > 0 && i < |Rechunker.Entries(content, streams)|
    ensures var e := Rechunker.Entries(content, streams)[i];
      && |Rechunker.Entries(content, streams)| == ChunkCount(|content|, Rechunker.CHUNK_SIZE)
      && e.seqno == i && e.streamId == StreamOf(i, streams)
      && IsSlice(content, Rechunker.CHUNK_SIZE, i, e.chunk)
  {
    hide Concat;
    Rechunker.EntriesFacts(content, streams);
  }

  /** An order of arrival: every chunk at least once, and no other number. */
  predicate Complete(order: seq<nat>, n: nat) {
    && (forall k :: 0 <= k < |order| ==> order[k] < n)
    && forall i :: 0 <= i < n ==> i in order
  }

  /**
   Whatever pieces the file is read in, whatever the order of arrival and the repetitions, and however often
   the receiver flushes: after DONE with the file's hash the receiver finishes, with exactly the file.
   */
  method Deliver(pieces: seq<Bytes>, order: seq<nat>, due: seq<bool>, sha: Bytes -> string) returns (r: Outcome, file: Bytes)
    requires Complete(order, ChunkCount(|Concat(pieces)|, 1400)) && ChunkCount(|Concat(pieces)|, 1400) <= WORD
    requires |due| == |order|
    ensures r.Finished? && file == Concat(pieces)
  {
    hide Rechunker.Entries, Concat, Incoming.Valid, IsSlice, StreamOf, ChunkCount, Geometry, Sendable, OnlyHash, Stray;
    var entries, streams := Cut(pieces);
    var content, n := Concat(pieces), |entries|;
    EntryCount(content, streams);
    var t := new Incoming(n, 1400, streams, content);
    GeometryOf(content, n);
    for k := 0 to |order|
      invariant t.Valid() && t.genuine && !t.doneSeen
      invariant forall x :: x in t.receivedSeqs <==> x in order[..k]
    {
      var entry := entries[order[k]];
      EntryFits(content, streams, order[k]);
      SliceSendable(content, n, order[k], entry.chunk);
      assert order[..k + 1] == order[..k] + [order[k]];
      t.OnChunk(order[k], entry.streamId, entry.chunk, due[k]);
    }
    assert order[..|order|] == order;
    t.OnDone(Some(sha(content)), false);
    assert t.receivedSeqs == Without(n, n);
    r := t.MaybeFinalize(sha);
    file := t.file;
  }

  lemma EntryCount(content: Bytes, streams: nat)
    requires streams > 0
    ensures |Rechunker.Entries(content, streams)| == ChunkCount(|content|, 1400)
  {
    hide Concat;
    Rechunker.EntriesFacts(content, streams);
  }

  lemma GeometryOf(content: Bytes, n: nat)
    requires n == ChunkCount(|content|, 1400)
    ensures Geometry(content, 1400, n)
  {
  }

  lemma SliceSendable(content: Bytes, n: nat, i: nat, chunk: Bytes)
    requires i < n && IsSlice(content, 1400, i, chunk)
    ensures Sendable(content, 1400, n, i, chunk)
  {
  }
}
