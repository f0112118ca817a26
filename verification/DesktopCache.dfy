/**
 The resend cache of the desktop v2 sender: a bounded store of sent chunks in front of a spool file
 that holds every chunk at its offset.
 */
module DesktopCache {
  import opened Common
  import opened DesktopFile

  const MAX_BYTES: nat := 128 * 1024 * 1024

  datatype Cache = Cache(order: seq<nat>, held: map<nat, Bytes>)

  /** The order list names each held chunk once. */
  predicate Matched(c: Cache) {
    && (forall i, j :: 0 <= i < j < |c.order| ==> c.order[i] != c.order[j])
    && (forall n :: n in c.order ==> n in c.held)
    && (forall n :: n in c.held ==> n in c.order)
  }

  function Sizes(c: Cache): (s: seq<nat>)
    requires Matched(c)
    ensures |s| == |c.order|
  {
    seq(|c.order|, i requires 0 <= i < |c.order| => |c.held[c.order[i]]|)
  }

  function Total(c: Cache): nat
    requires Matched(c)
  {
    Sum(Sizes(c))
  }

  /** Everything held is what was sent under its number. */
  predicate Holds(c: Cache, sent: map<nat, Bytes>) {
    forall n :: n in c.held ==> n in sent && c.held[n] == sent[n]
  }

  /** A chunk sent again replaces the old copy and keeps its place. */
  function Admit(c: Cache, n: nat, data: Bytes): Cache {
    Cache(if n in c.held then c.order else c.order + [n], c.held[n := data])
  }

  function DropOldest(c: Cache): Cache
    requires c.order != []
  {
    Cache(c.order[1..], c.held - {c.order[0]})
  }

  /** Oldest first, until the rest fits. */
  function Evict(c: Cache): Cache
    requires Matched(c)
    decreases |c.order|
  {
    if Total(c) <= MAX_BYTES || c.order == [] then c
    else
      DropKeeps(c);
      Evict(DropOldest(c))
  }

  /**
   Eviction keeps the newest chunks, unchanged, and as many as fit: with the next older one the total
   would be above 128 MiB.
   */
  lemma {:induction false} EvictKeeps(c: Cache)
    requires Matched(c)
    ensures Matched(Evict(c)) && Total(Evict(c)) <= 128 * 1024 * 1024
    ensures |Evict(c).order| <= |c.order| && Evict(c).order == c.order[|c.order| - |Evict(c).order|..]
    ensures forall n :: n in Evict(c).held ==> n in c.held && Evict(c).held[n] == c.held[n]
    ensures |Evict(c).order| < |c.order| ==>
      var next := c.order[|c.order| - |Evict(c).order| - 1];
      next in c.held && Total(Evict(c)) + |c.held[next]| > 128 * 1024 * 1024
    decreases |c.order|
  {
    hide Matched, Total, DropOldest;
    EmptyTotal(c);
    if Total(c) > MAX_BYTES {
      DropKeeps(c);
      var d, e := DropOldest(c), Evict(c);
      EvictKeeps(d);
      DropOrder(c);
      assert e == Evict(d);
      if |e.order| < |d.order| {
        var k := |d.order| - |e.order| - 1;
        assert d.order[k] == c.order[k + 1] && c.held[d.order[k]] == d.held[d.order[k]];
      } else {
        EvictNone(d);
      }
    }
  }

  lemma EvictNone(c: Cache)
    requires Matched(c) && |Evict(c).order| == |c.order|
    ensures Evict(c) == c
  {
    hide Total;
    if Total(c) > MAX_BYTES && c.order != [] {
      DropKeeps(c);
      EvictShorter(DropOldest(c));
    }
  }

  lemma {:induction false} EvictShorter(c: Cache)
    requires Matched(c)
    ensures |Evict(c).order| <= |c.order|
    decreases |c.order|
  {
    hide Total;
    if Total(c) > MAX_BYTES && c.order != [] {
      DropKeeps(c);
      EvictShorter(DropOldest(c));
    }
  }

  lemma DropOrder(c: Cache)
    requires c.order != []
    ensures DropOldest(c).order == c.order[1..]
    ensures forall n :: n in DropOldest(c).held ==> n in c.held && DropOldest(c).held[n] == c.held[n]
  {
  }

  lemma DropMatches(c: Cache)
    requires Matched(c) && c.order != []
    ensures Matched(DropOldest(c)) && c.order[0] in c.held
  {
    var d := DropOldest(c);
    assert forall i :: 0 <= i < |d.order| ==> d.order[i] == c.order[i + 1];
    forall n | n in d.held ensures n in d.order {
      var i :| 0 <= i < |c.order| && c.order[i] == n;
      assert d.order[i - 1] == n;
    }
  }

  lemma DropKeeps(c: Cache)
    requires Matched(c) && c.order != []
    ensures Matched(DropOldest(c)) && |DropOldest(c).order| < |c.order|
    ensures c.order[0] in c.held && Total(DropOldest(c)) == Total(c) - |c.held[c.order[0]]|
  {
    DropMatches(c);
    var d := DropOldest(c);
    assert |Sizes(c)[1..]| == |Sizes(d)|;
    forall i | 0 <= i < |d.order| ensures Sizes(c)[1..][i] == Sizes(d)[i] {
      assert d.order[i] == c.order[i + 1];
    }
    assert Sizes(c)[1..] == Sizes(d);
  }

  lemma DropHolds(c: Cache, sent: map<nat, Bytes>)
    requires Holds(c, sent) && c.order != []
    ensures Holds(DropOldest(c), sent)
  {
  }

  lemma AdmitHolds(c: Cache, sent: map<nat, Bytes>, n: nat, data: Bytes)
    requires Holds(c, sent)
    ensures Holds(Admit(c, n, data), sent[n := data])
  {
  }

  lemma EmptyTotal(c: Cache)
    requires Matched(c)
    ensures c.order == [] ==> Total(c) == 0
  {
  }

  /** A new chunk becomes the newest; one that is held is replaced where it stands. The others stay. */
  lemma AdmitExactly(c: Cache, n: nat, data: Bytes)
    ensures n in Admit(c, n, data).held && Admit(c, n, data).held[n] == data
    ensures forall k :: k != n ==> (k in c.held <==> k in Admit(c, n, data).held)
    ensures forall k :: k in c.held && k != n ==> Admit(c, n, data).held[k] == c.held[k]
    ensures n in c.held ==> Admit(c, n, data).order == c.order
    ensures n !in c.held ==> Admit(c, n, data).order == c.order + [n]
  {
  }

  lemma AdmitMatches(c: Cache, n: nat, data: Bytes)
    requires Matched(c)
    ensures Matched(Admit(c, n, data))
  {
    var d := Admit(c, n, data);
    if n !in c.held {
      assert d.order[|c.order|] == n;
      assert forall x :: x in c.order ==> x in d.order;
    }
  }

  lemma AdmitKeeps(c: Cache, n: nat, data: Bytes)
    requires Matched(c)
    ensures Matched(Admit(c, n, data))
    ensures Total(Admit(c, n, data)) == Total(c) + |data| - (if n in c.held then |c.held[n]| else 0)
  {
    hide Sum;
    var d := Admit(c, n, data);
    AdmitMatches(c, n, data);
    if n in c.held {
      var k :| 0 <= k < |c.order| && c.order[k] == n;
      assert Sizes(d) == Sizes(c)[k := |data|];
      SumUpdate(Sizes(c), k, |data|);
    } else {
      assert Sizes(d) == Sizes(c) + [|data|];
      SumSnoc(Sizes(c), |data|);
    }
  }

  // The spool.

  /** What a cache miss yields. */
  function Miss(file: Bytes, size: nat, chunkSize: nat, n: nat): Option<Bytes> {
    var length := ChunkLength(size, chunkSize, n);
    var data := ReadAt(file, Offset(n, chunkSize), length);
    if length <= 0 || data == [] then None else Some(data)
  }

  /** A miss yields what the spool has of the chunk, and nothing if that is empty. */
  lemma MissYields(file: Bytes, size: nat, chunkSize: nat, n: nat)
    ensures var (offset, length) := (Offset(n, chunkSize), ChunkLength(size, chunkSize, n));
      && (Miss(file, size, chunkSize, n).None? <==> length == 0 || offset >= |file|)
      && (length > 0 && offset < |file| ==>
            Miss(file, size, chunkSize, n) == Some(file[offset..if offset + length <= |file| then offset + length else |file|]))
  {
    hide ChunkLength;
  }

  /**
   For a chunk whose data is in the spool: the miss yields it exactly if its length is what the
   metadata says, or what the file has left, whichever is less.
   */
  lemma MissExact(file: Bytes, size: nat, chunkSize: nat, n: nat, data: Bytes)
    requires data != [] && Offset(n, chunkSize) + |data| <= |file|
    requires file[Offset(n, chunkSize)..Offset(n, chunkSize) + |data|] == data
    ensures Miss(file, size, chunkSize, n) == Some(data)
      <==> |data| == Min(ChunkLength(size, chunkSize, n), |file| - Offset(n, chunkSize))
  {
    var offset := Offset(n, chunkSize);
    var got := ReadAt(file, offset, ChunkLength(size, chunkSize, n));
    if |got| == |data| { assert got == file[offset..offset + |data|]; }
  }

  class Outgoing {
    const size: nat
    const chunkSize: nat
    var resendCache: map<nat, Bytes>
    var resendOrder: seq<nat>
    var resendCacheBytes: int
    var spool: Bytes
    ghost var sent: map<nat, Bytes>

    constructor (size: nat, chunkSize: nat)
      ensures Valid() && this.size == size && this.chunkSize == chunkSize && sent == map[]
    {
      this.size, this.chunkSize := size, chunkSize;
      resendCache, resendOrder, resendCacheBytes, spool, sent := map[], [], 0, [], map[];
    }

    function View(): Cache
      reads this
    {
      Cache(resendOrder, resendCache)
    }

    /** The list and the keys agree, the count is right and bounded, and everything held was sent. */
    ghost predicate Valid()
      reads this
    {
      Matched(View()) && resendCacheBytes == Total(View()) <= MAX_BYTES && Holds(View(), sent)
    }

    method CacheChunkForResend(n: nat, data: Bytes)
      requires Valid()
      modifies `resendCache, `resendOrder, `resendCacheBytes, `sent
      ensures Valid() && sent == old(sent)[n := data]
      ensures Matched(old(View())) && Matched(Admit(old(View()), n, data))
      ensures View() == Evict(Admit(old(View()), n, data))
    {
      hide Matched, Total, Holds;
      AdmitKeeps(View(), n, data);
      AdmitHolds(View(), sent, n, data);
      if n in resendCache {
        resendCacheBytes := resendCacheBytes - |resendCache[n]|;
      } else {
        resendOrder := resendOrder + [n];
      }
      resendCache := resendCache[n := data];
      resendCacheBytes := resendCacheBytes + |data|;
      sent := sent[n := data];
      ghost var full := View();
      while resendCacheBytes > MAX_BYTES && |resendOrder| > 0
        invariant Matched(View()) && resendCacheBytes == Total(View())
        invariant Evict(View()) == Evict(full) && Holds(View(), sent) && sent == old(sent)[n := data]
        decreases |resendOrder|
      {
        DropKeeps(View());
        DropHolds(View(), sent);
        var oldestSeq := resendOrder[0];
        resendOrder := resendOrder[1..];
        var oldest := resendCache[oldestSeq];
        resendCache := resendCache - {oldestSeq};
        resendCacheBytes := resendCacheBytes - |oldest|;
      }
      EmptyTotal(View());
    }

    /** Every chunk was sent with its slice of the source, and is in the spool. */
    ghost predicate Faithful(source: Bytes)
      reads this
    {
      && size == |source| && chunkSize > 0
      && (forall n :: n in sent ==> IsSlice(source, chunkSize, n, sent[n]))
      && Spooled(spool, source, chunkSize, sent.Keys)
    }

    /** The first sending of a chunk: into the cache and into the spool. */
    method FirstSend(n: nat, data: Bytes, ghost source: Bytes)
      requires Valid()
      modifies `resendCache, `resendOrder, `resendCacheBytes, `sent, `spool
      ensures Valid() && sent == old(sent)[n := data]
      ensures spool == WriteAt(old(spool), Offset(n, chunkSize), data)
      ensures old(Faithful(source)) && IsSlice(source, chunkSize, n, data) ==> Faithful(source)
    {
      hide Matched, Total, Holds, WriteAt, Spooled, Offset;
      if Faithful(source) && IsSlice(source, chunkSize, n, data) {
        SendSpools(spool, source, chunkSize, sent.Keys, n);
        assert sent[n := data].Keys == sent.Keys + {n};
      }
      CacheChunkForResend(n, data);
      spool := WriteAt(spool, Offset(n, chunkSize), data);
    }

    /** A sent chunk comes from the cache or from the spool, and it is the same. */
    method ResendChunk(n: nat, ghost source: Bytes) returns (payload: Option<Bytes>)
      requires Valid()
      ensures payload == if n in resendCache then Some(sent[n]) else Miss(spool, size, chunkSize, n)
      ensures Faithful(source) && n in sent ==> Offset(n, chunkSize) < |source| && payload == Some(Slice(source, chunkSize, n))
    {
      if Faithful(source) && n in sent {
        assert IsSlice(source, chunkSize, n, sent[n]);
        HitIsMiss(spool, source, chunkSize, sent.Keys, n);
      }
      hide Matched, Total, Spooled, Offset, Slice;
      if n in resendCache { return Some(resendCache[n]); }
      var length := ChunkLength(size, chunkSize, n);
      if length <= 0 { return None; }
      var data := ReadAt(spool, Offset(n, chunkSize), length);
      if |data| <= 0 { return None; }
      payload := Some(data);
    }
  }

  // With chunks of the promised length, a hit and a miss are the same.

  /**
   The cache is only a shortcut: when every chunk was sent with its source slice, resending a sent
   chunk yields that slice, whether the cache still holds it or the spool is read.
   */
  lemma HitIsMiss(file: Bytes, source: Bytes, chunkSize: nat, sent: set<nat>, n: nat)
    requires chunkSize > 0 && Spooled(file, source, chunkSize, sent) && n in sent
    ensures Offset(n, chunkSize) < |source|
    ensures Miss(file, |source|, chunkSize, n) == Some(Slice(source, chunkSize, n))
  {
  }

  /** The spool after the first k pieces of a caller that cuts the file into pieces of its own size. */
  function SpoolOf(source: Bytes, cut: nat, chunkSize: nat, k: nat): Bytes
    requires forall i: nat :: i < k ==> Offset(i, cut) < |source|
  {
    if k == 0 then [] else WriteAt(SpoolOf(source, cut, chunkSize, k - 1), Offset(k - 1, chunkSize), Slice(source, cut, k - 1))
  }

  function Below(k: nat): (s: set<nat>)
    ensures forall i: nat :: i in s <==> i < k
  {
    if k == 0 then {} else Below(k - 1) + {k - 1}
  }

  lemma {:induction false} SpoolOfSame(source: Bytes, cut: nat, k: nat)
    requires forall i: nat :: i < k ==> Offset(i, cut) < |source|
    ensures Spooled(SpoolOf(source, cut, cut, k), source, cut, Below(k))
  {
    hide WriteAt, Spooled, Slice;
    SpooledNone(source, cut);
    if k > 0 {
      SpoolOfSame(source, cut, k - 1);
      SendSpools(SpoolOf(source, cut, cut, k - 1), source, cut, Below(k - 1), k - 1);
    }
  }

  lemma SpooledNone(source: Bytes, chunkSize: nat)
    ensures Spooled([], source, chunkSize, {})
  {
  }

  lemma PiecesInside(size: nat, cut: nat)
    requires cut > 0
    ensures forall i: nat :: i < ChunkCount(size, cut) ==> Offset(i, cut) < size
    ensures size > 0 ==> ChunkCount(size, cut) >= 1
    ensures size > cut ==> ChunkCount(size, cut) >= 2
    ensures size <= cut ==> ChunkCount(size, cut) <= 1
  {
    CountCovers(size, cut);
  }

  lemma SpoolReaches(source: Bytes, cut: nat, chunkSize: nat, k: nat)
    requires forall i: nat :: i < k ==> Offset(i, cut) < |source|
    requires k >= 2 && cut > 0
    ensures |SpoolOf(source, cut, chunkSize, k)| > chunkSize
  {
    assert Offset(k, cut) == Offset(k - 1, cut) + cut;
    Scale(0, k - 1, chunkSize);
  }

  /** Every piece is resent alike from the cache and from the spool. */
  ghost predicate HitsAgree(source: Bytes, cut: nat, chunkSize: nat, n: nat)
    requires forall i: nat :: i < n ==> Offset(i, cut) < |source|
  {
    forall i: nat :: i < n ==> Miss(SpoolOf(source, cut, chunkSize, n), |source|, chunkSize, i) == Some(Slice(source, cut, i))
  }

  /**
   The chunk size a transfer negotiates can differ from the one its caller cuts with. A hit and a
   miss agree on every piece exactly when the two sizes are equal or the file is a single piece
   under both.
   */
  lemma HitsAgreeExactly(source: Bytes, cut: nat, chunkSize: nat)
    requires cut > 0 && chunkSize > 0
    ensures forall i: nat :: i < ChunkCount(|source|, cut) ==> Offset(i, cut) < |source|
    ensures HitsAgree(source, cut, chunkSize, ChunkCount(|source|, cut))
      <==> cut == chunkSize || |source| <= Min(cut, chunkSize)
  {
    hide ChunkCount, SpoolOf;
    var n := ChunkCount(|source|, cut);
    PiecesInside(|source|, cut);
    if cut == chunkSize {
      SpoolOfSame(source, cut, n);
      forall i: nat | i < n
        ensures Miss(SpoolOf(source, cut, chunkSize, n), |source|, chunkSize, i) == Some(Slice(source, cut, i))
      {
        HitIsMiss(SpoolOf(source, cut, cut, n), source, cut, Below(n), i);
      }
    } else if |source| <= Min(cut, chunkSize) {
      if n == 1 {
        assert Offset(0, cut) < |source|;
        OnePiece(source, cut, chunkSize);
      }
    } else {
      FirstPieceDiffers(source, cut, chunkSize, n);
    }
  }

  lemma OnePiece(source: Bytes, cut: nat, chunkSize: nat)
    requires 0 < |source| <= Min(cut, chunkSize) && Offset(0, cut) < |source|
    ensures Miss(SpoolOf(source, cut, chunkSize, 1), |source|, chunkSize, 0) == Some(Slice(source, cut, 0))
  {
    assert Offset(0, chunkSize) == 0 == Offset(0, cut);
    assert Offset(1, cut) == cut;
    assert Slice(source, cut, 0) == source;
    var none := SpoolOf(source, cut, chunkSize, 0);
    assert SpoolOf(source, cut, chunkSize, 1) == WriteAt(none, 0, source);
    assert WriteAt(none, 0, source) == source;
  }

  lemma FirstPieceDiffers(source: Bytes, cut: nat, chunkSize: nat, n: nat)
    requires cut > 0 && chunkSize > 0 && cut != chunkSize && |source| > Min(cut, chunkSize)
    requires forall i: nat :: i < n ==> Offset(i, cut) < |source|
    requires n >= 1 && (|source| > cut ==> n >= 2)
    ensures Miss(SpoolOf(source, cut, chunkSize, n), |source|, chunkSize, 0) != Some(Slice(source, cut, 0))
  {
    hide SpoolOf;
    assert Offset(0, chunkSize) == 0 == Offset(0, cut);
    assert Offset(1, cut) == cut;
    if cut < chunkSize { SpoolReaches(source, cut, chunkSize, n); }
  }
}
