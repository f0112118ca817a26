/**
 The preload script cuts a file that is read in pieces of any size into numbered chunks of 1400
 bytes, and hands them over in batches of 384.
 */
module Rechunker {
  import opened Common

  const CHUNK_SIZE: nat := 1400
  const BATCH: nat := 384
  const MB: nat := 1024 * 1024

  function RecommendedStreamCount(fileSize: nat): (n: nat)
    ensures 1 <= n <= 4
    ensures n >= 2 <==> fileSize >= 64 * 1024 * 1024
    ensures n >= 3 <==> fileSize >= 256 * 1024 * 1024
    ensures n == 4 <==> fileSize >= 512 * 1024 * 1024
  {
    if fileSize >= 512 * MB then 4 else if fileSize >= 256 * MB then 3 else if fileSize >= 64 * MB then 2 else 1
  }

  datatype Entry = Entry(seqno: nat, chunk: Bytes, streamId: nat)

  function ChunkCount(size: nat): nat {
    (size + CHUNK_SIZE - 1) / CHUNK_SIZE
  }

  /** The first m full chunks of a content. */
  function Full(content: Bytes, m: nat, streams: nat): (es: seq<Entry>)
    requires m * CHUNK_SIZE <= |content| && streams > 0
    ensures |es| == m
  {
    seq(m, i requires 0 <= i < m => Entry(i, content[i * CHUNK_SIZE..(i + 1) * CHUNK_SIZE], i % streams))
  }

  /** What the receiver of the batches should see for a content. */
  function Entries(content: Bytes, streams: nat): seq<Entry>
    requires streams > 0
  {
    var m := |content| / CHUNK_SIZE;
    Full(content, m, streams)
    + if m * CHUNK_SIZE < |content| then [Entry(m, content[m * CHUNK_SIZE..], m % streams)] else []
  }

  function Payloads(es: seq<Entry>): (cs: seq<Bytes>)
    ensures |cs| == |es|
  {
    seq(|es|, i requires 0 <= i < |es| => es[i].chunk)
  }

  lemma FullGrows(content: Bytes, more: Bytes, m: nat, streams: nat)
    requires m * CHUNK_SIZE <= |content| && streams > 0
    ensures Full(content + more, m, streams) == Full(content, m, streams)
  {
    forall i | 0 <= i < m
      ensures (content + more)[i * CHUNK_SIZE..(i + 1) * CHUNK_SIZE] == content[i * CHUNK_SIZE..(i + 1) * CHUNK_SIZE]
    {
      assert (i + 1) * CHUNK_SIZE <= m * CHUNK_SIZE;
    }
  }

  lemma FullNext(content: Bytes, m: nat, streams: nat)
    requires (m + 1) * CHUNK_SIZE <= |content| && streams > 0
    ensures Full(content, m + 1, streams)
         == Full(content, m, streams) + [Entry(m, content[m * CHUNK_SIZE..(m + 1) * CHUNK_SIZE], m % streams)]
  {
  }

  lemma {:induction false} FullJoins(content: Bytes, m: nat, streams: nat)
    requires m * CHUNK_SIZE <= |content| && streams > 0
    ensures Concat(Payloads(Full(content, m, streams))) == content[..m * CHUNK_SIZE]
  {
    if m > 0 {
      FullJoins(content, m - 1, streams);
      FullNext(content, m - 1, streams);
      var last := content[(m - 1) * CHUNK_SIZE..m * CHUNK_SIZE];
      assert Payloads(Full(content, m, streams)) == Payloads(Full(content, m - 1, streams)) + [last];
      ConcatSnoc(Payloads(Full(content, m - 1, streams)), last);
      assert content[..m * CHUNK_SIZE] == content[..(m - 1) * CHUNK_SIZE] + last;
    }
  }

  /**
   The chunks join to the file, are numbered from 0, number ceil(size / 1400), and are exactly 1400
   bytes long, except that the last may be shorter but not empty. Each goes to one stream.
   */
  lemma EntriesFacts(content: Bytes, streams: nat)
    requires streams > 0
    ensures var es := Entries(content, streams);
      && Concat(Payloads(es)) == content
      && |es| == ChunkCount(|content|)
      && (forall i :: 0 <= i < |es| ==> es[i].seqno == i && es[i].streamId == i % streams && 0 < |es[i].chunk| <= CHUNK_SIZE)
      && (forall i :: 0 <= i < |es| - 1 ==> |es[i].chunk| == CHUNK_SIZE)
  {
    var m := |content| / CHUNK_SIZE;
    FullJoins(content, m, streams);
    var full := Full(content, m, streams);
    if m * CHUNK_SIZE < |content| {
      var last := content[m * CHUNK_SIZE..];
      assert Payloads(Entries(content, streams)) == Payloads(full) + [last];
      ConcatSnoc(Payloads(full), last);
      assert content[..m * CHUNK_SIZE] + last == content;
    } else {
      assert full + [] == full;
      assert content[..m * CHUNK_SIZE] == content;
    }
  }

  /** After reading `content`: the full chunks are pushed, the rest is carried. */
  ghost predicate Carried(content: Bytes, carry: Bytes, seqno: nat, pushed: seq<Entry>, streams: nat) {
    && streams > 0 && seqno * CHUNK_SIZE + |carry| == |content|
    && carry == content[seqno * CHUNK_SIZE..]
    && pushed == Full(content, seqno, streams)
  }

  lemma CarryStart(streams: nat)
    requires streams > 0
    ensures Carried([], [], 0, [], streams)
  {
  }

  /** Merging the next piece, empty or not. */
  lemma CarryMerge(content: Bytes, carry: Bytes, seqno: nat, pushed: seq<Entry>, streams: nat, next: Bytes)
    requires Carried(content, carry, seqno, pushed, streams)
    ensures Carried(content + next, carry + next, seqno, pushed, streams)
  {
    FullGrows(content, next, seqno, streams);
  }

  /** Pushing one full chunk off the front. */
  lemma CarryPush(content: Bytes, carry: Bytes, seqno: nat, pushed: seq<Entry>, streams: nat)
    requires Carried(content, carry, seqno, pushed, streams) && |carry| >= CHUNK_SIZE
    ensures Carried(content, carry[CHUNK_SIZE..], seqno + 1, pushed + [Entry(seqno, carry[..CHUNK_SIZE], seqno % streams)], streams)
  {
    FullNext(content, seqno, streams);
    assert carry[..CHUNK_SIZE] == content[seqno * CHUNK_SIZE..(seqno + 1) * CHUNK_SIZE];
  }

  lemma CarryEnds(content: Bytes, carry: Bytes, seqno: nat, pushed: seq<Entry>, streams: nat)
    requires Carried(content, carry, seqno, pushed, streams) && |carry| < CHUNK_SIZE
    ensures streams > 0
    ensures Entries(content, streams) == pushed + if |carry| > 0 then [Entry(seqno, carry, seqno % streams)] else []
  {
    assert seqno == |content| / CHUNK_SIZE;
  }

  lemma ConcatNone()
    ensures Concat<Byte>([]) == []
  {
  }

  class FileSender {
    const streamCount: nat
    var globalSeq: nat
    var batch: seq<Entry>
    var batches: seq<seq<Entry>> // handed to the main process

    constructor (fileSize: nat)
      ensures Valid() && Pushed() == [] && globalSeq == 0 && batch == [] && batches == []
      ensures streamCount == RecommendedStreamCount(fileSize)
    {
      streamCount := Min(RecommendedStreamCount(fileSize), 255);
      globalSeq, batch, batches := 0, [], [];
    }

    /** Batches leave full, except the last. */
    ghost predicate Valid()
      reads this
    {
      |batch| < BATCH && streamCount > 0 && forall i :: 0 <= i < |batches| ==> |batches[i]| == BATCH
    }

    ghost function Pushed(): seq<Entry>
      reads this
    {
      Concat(batches) + batch
    }

    method PushChunk(chunk: Bytes)
      requires Valid()
      modifies this
      ensures Valid() && globalSeq == old(globalSeq) + 1
      ensures Pushed() == old(Pushed()) + [Entry(old(globalSeq), chunk, old(globalSeq) % streamCount)]
    {
      var entry := Entry(globalSeq, chunk, globalSeq % streamCount);
      assert Concat(batches) + (batch + [entry]) == Concat(batches) + batch + [entry];
      batch := batch + [entry];
      if |batch| >= BATCH {
        ConcatSnoc(batches, batch);
        batches := batches + [batch];
        batch := [];
        assert Concat(batches) + batch == Concat(batches);
      }
      globalSeq := globalSeq + 1;
    }

    /** The carry/merge loop over the pieces the stream delivers, empty ones included. */
    method Send(pieces: seq<Bytes>)
      requires Valid() && Pushed() == [] && globalSeq == 0 && batch == [] && batches == []
      modifies this
      ensures Concat(batches) == Entries(Concat(pieces), streamCount)
      ensures forall i :: 0 <= i < |batches| ==> 0 < |batches[i]| <= BATCH
      ensures forall i :: 0 <= i < |batches| - 1 ==> |batches[i]| == BATCH
    {
      hide Concat, Full, Pushed, Carried, Entries;
      var carry: Bytes := [];
      CarryStart(streamCount);
      assert pieces[..0] == [] && Concat<Byte>([]) == [] by { ConcatNone(); }
      for i := 0 to |pieces|
        invariant Valid() && |carry| < CHUNK_SIZE
        invariant Carried(Concat(pieces[..i]), carry, globalSeq, Pushed(), streamCount)
      {
        assert pieces[..i + 1] == pieces[..i] + [pieces[i]];
        ConcatSnoc(pieces[..i], pieces[i]);
        carry := Absorb(Concat(pieces[..i]), carry, pieces[i]);
      }
      assert pieces[..|pieces|] == pieces;
      CarryEnds(Concat(pieces), carry, globalSeq, Pushed(), streamCount);
      assert Pushed() + [] == Pushed();
      if |carry| > 0 { PushChunk(carry); }
      FlushLast();
    }

    /** One piece: merge it with the carry, push what is full, carry the rest. */
    method Absorb(ghost content: Bytes, carry: Bytes, next: Bytes) returns (rest: Bytes)
      requires Valid() && Carried(content, carry, globalSeq, Pushed(), streamCount)
      modifies this
      ensures Valid() && |rest| < CHUNK_SIZE
      ensures Carried(content + next, rest, globalSeq, Pushed(), streamCount)
    {
      hide Concat, Full, Pushed, Carried;
      CarryMerge(content, carry, globalSeq, Pushed(), streamCount, next);
      assert |carry| == 0 ==> carry + next == next;
      var merged := if |carry| > 0 then carry + next else next;
      var offset := 0;
      assert merged[0..] == merged;
      while offset + CHUNK_SIZE <= |merged|
        invariant Valid() && offset <= |merged|
        invariant Carried(content + next, merged[offset..], globalSeq, Pushed(), streamCount)
        decreases |merged| - offset
      {
        CarryPush(content + next, merged[offset..], globalSeq, Pushed(), streamCount);
        assert merged[offset..][..CHUNK_SIZE] == merged[offset..offset + CHUNK_SIZE];
        assert merged[offset..][CHUNK_SIZE..] == merged[offset + CHUNK_SIZE..];
        PushChunk(merged[offset..offset + CHUNK_SIZE]);
        offset := offset + CHUNK_SIZE;
      }
      rest := if offset < |merged| then merged[offset..] else [];
      assert rest == merged[offset..];
    }

    method FlushLast()
      requires Valid()
      modifies `batch, `batches
      ensures Concat(batches) == old(Pushed()) && batch == []
      ensures forall i :: 0 <= i < |batches| ==> 0 < |batches[i]| <= BATCH
      ensures forall i :: 0 <= i < |batches| - 1 ==> |batches[i]| == BATCH
    {
      if |batch| > 0 {
        ConcatSnoc(batches, batch);
        batches := batches + [batch];
      } else {
        assert Concat(batches) + batch == Concat(batches);
      }
      batch := [];
    }
  }
}
