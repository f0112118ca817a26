/**
 The Android v2 transfer objects: an Incoming file that is reassembled in order from chunks arriving
 in any order, and an Outgoing file that answers repair requests.
 */
module AndroidTransfer {
  import opened Common

  const CHUNK_SIZE: nat := 1400
  const INITIAL_CREDIT: nat := 4 * 1024 * 1024
  const FLOW_STEP: nat := 512 * 1024
  const DISK_FLUSH: nat := 1024 * 1024
  const REPAIR_LIMIT: nat := 128
  const RANGE_LIMIT: nat := 32

  // Flow accounting of the receiver.

  datatype Ledger = Ledger(received: seq<bool>, receivedBytes: nat, flowPending: nat)

  /**
   A chunk is counted once. The grant that goes out is returned, 0 for none; `timely` says that the
   flow interval has passed.
   */
  function Account(l: Ledger, size: nat, index: nat, length: nat, timely: bool): (r: (Ledger, nat))
    requires index < |l.received|
    ensures |r.0.received| == |l.received|
    ensures r.0.flowPending + r.1 == l.flowPending + (if l.received[index] then 0 else length)
    ensures r.0.receivedBytes == l.receivedBytes + (if l.received[index] then 0 else length)
    ensures l.flowPending < FLOW_STEP ==> r.0.flowPending < FLOW_STEP
    ensures r.0.received == l.received[index := true]
    ensures r.1 > 0 ==> r.0.flowPending == 0
    ensures !l.received[index] ==>
      (r.0.flowPending == 0 <==> l.flowPending + length >= 512 * 1024 || timely || l.receivedBytes + length >= size || l.flowPending + length == 0)
  {
    if l.received[index] then (l, 0)
    else
      var bytes, pending := l.receivedBytes + length, l.flowPending + length;
      var grant := if pending >= FLOW_STEP || timely || bytes >= size then pending else 0;
      (Ledger(l.received[index := true], bytes, pending - grant), grant)
  }

  // Reassembly. `got` holds the payload of each chunk that has arrived.

  type Chunks = seq<Option<Bytes>>

  /** A chunk takes effect only the first time. */
  function Arrive(got: Chunks, index: int, payload: Bytes): (r: Chunks)
    ensures |r| == |got|
  {
    if 0 <= index < |got| && got[index].None? then got[index := Some(payload)] else got
  }

  /** The first k payloads joined. */
  function Joined(got: Chunks, k: nat): Bytes
    requires k <= |got| && forall i :: 0 <= i < k ==> got[i].Some?
  {
    if k == 0 then [] else Joined(got, k - 1) + got[k - 1].value
  }

  lemma {:induction false} JoinedPrefix(got: Chunks, got': Chunks, k: nat)
    requires k <= |got| == |got'|
    requires forall i :: 0 <= i < k ==> got[i].Some? && got'[i] == got[i]
    ensures Joined(got', k) == Joined(got, k)
  {
    if k > 0 { JoinedPrefix(got, got', k - 1); }
  }

  function Size(chunk: Option<Bytes>): nat {
    match chunk case None => 0 case Some(bytes) => |bytes|
  }

  function Sizes(got: Chunks): (s: seq<nat>)
    ensures |s| == |got|
  {
    seq(|got|, i requires 0 <= i < |got| => Size(got[i]))
  }

  lemma ArriveSize(got: Chunks, index: nat, payload: Bytes)
    requires index < |got| && got[index].None?
    ensures Sum(Sizes(Arrive(got, index, payload))) == Sum(Sizes(got)) + |payload|
  {
    assert Sizes(Arrive(got, index, payload)) == Sizes(got)[index := |payload|];
    SumUpdate(Sizes(got), index, |payload|);
  }

  /** Everything before the cursor is in `text`, in order; what has arrived beyond it is pending. */
  ghost predicate Assembling(got: Chunks, received: seq<bool>, pending: map<nat, Bytes>, cursor: nat, text: Bytes) {
    && |received| == |got| && cursor <= |got|
    && (forall i :: 0 <= i < |got| ==> (received[i] <==> got[i].Some?))
    && (forall i :: 0 <= i < cursor ==> got[i].Some?)
    && text == Joined(got, cursor)
    && (forall i :: i in pending <==> cursor <= i < |got| && got[i].Some?)
    && (forall i :: i in pending ==> pending[i] == got[i].value)
  }

  lemma AdmitKeeps(got: Chunks, received: seq<bool>, pending: map<nat, Bytes>, cursor: nat, text: Bytes, index: nat, payload: Bytes)
    requires Assembling(got, received, pending, cursor, text) && index < |got| && got[index].None?
    ensures Assembling(Arrive(got, index, payload), received[index := true], pending[index := payload], cursor, text)
  {
    JoinedPrefix(got, Arrive(got, index, payload), cursor);
  }

  lemma AssemblingBits(got: Chunks, received: seq<bool>, pending: map<nat, Bytes>, cursor: nat, text: Bytes)
    requires Assembling(got, received, pending, cursor, text)
    ensures |received| == |got| && forall i :: 0 <= i < |got| ==> (received[i] <==> got[i].Some?)
  {
  }

  lemma TakeKeeps(got: Chunks, received: seq<bool>, pending: map<nat, Bytes>, cursor: nat, text: Bytes)
    requires Assembling(got, received, pending, cursor, text) && cursor in pending
    ensures cursor < |got| && Assembling(got, received, pending - {cursor}, cursor + 1, text + pending[cursor])
  {
  }

  class Incoming {
    const chunks: nat
    const size: nat
    var received: seq<bool>
    var receivedBytes: nat
    var flowPending: nat
    var done: bool
    var pendingWrites: map<nat, Bytes>
    var writeBuffer: Bytes
    var output: Bytes
    var writeCursor: nat
    ghost var got: Chunks

    constructor (chunks: nat, size: nat)
      ensures Valid() && this.chunks == chunks && this.size == size
      ensures got == seq(chunks, _ => None) && View() == Ledger(seq(chunks, _ => false), 0, 0) && !done
    {
      this.chunks, this.size := chunks, size;
      received, receivedBytes, flowPending, done := seq(chunks, _ => false), 0, 0, false;
      pendingWrites, writeBuffer, output, writeCursor := map[], [], [], 0;
      got := seq(chunks, _ => None);
      new;
      NothingYet(got);
    }

    function View(): Ledger
      reads this
    {
      Ledger(received, receivedBytes, flowPending)
    }

    ghost predicate Written()
      reads this
    {
      && |got| == chunks && |writeBuffer| < DISK_FLUSH
      && Assembling(got, received, pendingWrites, writeCursor, output + writeBuffer)
    }

    ghost predicate Valid()
      reads this
    {
      && Written()
      && writeCursor !in pendingWrites
      && receivedBytes == Sum(Sizes(got))
      && flowPending < FLOW_STEP
    }

    method FlushWriteBuffer()
      modifies `output, `writeBuffer
      ensures output == old(output + writeBuffer) && writeBuffer == []
    {
      if |writeBuffer| == 0 {
        assert output + writeBuffer == output;
        return;
      }
      output := output + writeBuffer;
      writeBuffer := [];
    }

    /** Append every pending chunk that is next in order. */
    method DrainWrites(force: bool)
      requires Written()
      modifies `output, `writeBuffer, `pendingWrites, `writeCursor
      ensures Written() && writeCursor !in pendingWrites
      ensures force ==> writeBuffer == []
    {
      hide Assembling;
      while writeCursor in pendingWrites
        invariant Written()
        decreases chunks - writeCursor
      {
        var payload := pendingWrites[writeCursor];
        TakeKeeps(got, received, pendingWrites, writeCursor, output + writeBuffer);
        assert output + (writeBuffer + payload) == output + writeBuffer + payload;
        pendingWrites := pendingWrites - {writeCursor};
        writeBuffer := writeBuffer + payload;
        writeCursor := writeCursor + 1;
        if |writeBuffer| >= DISK_FLUSH {
          FlushWriteBuffer();
          assert output + writeBuffer == output;
        }
      }
      if force {
        FlushWriteBuffer();
        assert output + writeBuffer == output;
      }
    }

    /** A CHUNK packet; `remaining` is the rest of its body. The grant sent back is returned. */
    method ReceiveChunk(seqno: int, length: int, remaining: Bytes, timely: bool) returns (grant: nat)
      requires Valid()
      modifies this
      ensures Valid()
      ensures var fits := 0 <= length <= |remaining| && 0 <= seqno < chunks;
        && got == (if fits then Arrive(old(got), seqno, remaining[..length]) else old(got))
        && (View(), grant) == if fits then Account(old(View()), size, seqno, length, timely) else (old(View()), 0)
      ensures done == old(done)
    {
      hide Joined, Sum, Sizes, Assembling;
      if length < 0 || length > |remaining| { return 0; }
      if !(0 <= seqno < chunks) { return 0; }
      var payload := remaining[..length];
      AssemblingBits(got, received, pendingWrites, writeCursor, output + writeBuffer);
      if received[seqno] { return 0; }
      AdmitKeeps(got, received, pendingWrites, writeCursor, output + writeBuffer, seqno, payload);
      ghost var was := got;
      received := received[seqno := true];
      pendingWrites := pendingWrites[seqno := payload];
      got := Arrive(got, seqno, payload);
      ArriveSize(was, seqno, payload);
      DrainWrites(false);
      receivedBytes := receivedBytes + length;
      flowPending := flowPending + length;
      grant := 0;
      if flowPending >= FLOW_STEP || timely || receivedBytes >= size { grant := SendFlow(); }
    }

    /** The pending bytes become one grant, if there are any. */
    method SendFlow() returns (grant: nat)
      modifies `flowPending
      ensures grant == old(flowPending) && flowPending == 0
    {
      grant := flowPending;
      if grant <= 0 { return; }
      flowPending := 0;
    }

    method ReceiveDone()
      requires Valid()
      modifies `done
      ensures Valid() && done
    {
      done := true;
    }

    /** The first 128 chunks that have not arrived; none before DONE. */
    method FirstMissing() returns (missing: seq<nat>)
      requires Valid()
      ensures missing == if done then Request(got, 0, REPAIR_LIMIT) else []
    {
      if !done { return []; }
      hide Assembling, Request, Valid, Requesting;
      missing := [];
      var next := NextClearBit(0);
      RequestStart(got, next);
      while next < chunks && |missing| < REPAIR_LIMIT
        invariant |missing| <= REPAIR_LIMIT && |got| == chunks
        invariant next < chunks ==> got[next].None?
        invariant Requesting(got, missing, next)
        decreases chunks - next
      {
        var found := next;
        next := NextClearBit(found + 1);
        RequestStep(got, missing, found, next);
        missing := missing + [found];
      }
      RequestEnds(got, missing, next);
    }

    method NextClearBit(from: nat) returns (next: nat)
      requires Valid()
      ensures |got| == chunks && from <= next && forall i :: from <= i < next && i < chunks ==> got[i].Some?
      ensures next < chunks ==> got[next].None?
    {
      next := from;
      while next < chunks && received[next]
        invariant from <= next && forall i :: from <= i < next && i < chunks ==> got[i].Some?
      {
        next := next + 1;
      }
    }

    /** DONE has come and every chunk is there: the file is complete on disk. */
    method MaybeFinalize() returns (ok: bool)
      requires Valid()
      modifies `output, `writeBuffer, `pendingWrites, `writeCursor
      ensures Valid()
      ensures ok <==> done && forall i :: 0 <= i < chunks ==> got[i].Some?
      ensures ok ==> output == Joined(got, chunks) && pendingWrites == map[] && writeBuffer == []
      ensures !ok ==> unchanged(this)
    {
      if !done || exists i :: 0 <= i < chunks && !received[i] { return false; }
      DrainWrites(true);
      assert output + [] == output;
      ok := true;
    }

    /** The request that goes out, or the end of the file when nothing is missing. */
    method RequestMissing() returns (missing: seq<nat>, ok: bool)
      requires Valid()
      modifies `output, `writeBuffer, `pendingWrites, `writeCursor
      ensures Valid()
      ensures missing == if done then Request(got, 0, REPAIR_LIMIT) else []
      ensures ok <==> done && forall i :: 0 <= i < chunks ==> got[i].Some?
      ensures ok ==> missing == [] && output == Joined(got, chunks) && pendingWrites == map[] && writeBuffer == []
      ensures !ok ==> unchanged(this)
    {
      hide Request;
      if !done { return [], false; }
      missing := FirstMissing();
      if |missing| == 0 {
        ok := MaybeFinalize();
      } else {
        assert got[missing[0]].None?;
        ok := false;
      }
    }
  }

  lemma {:induction false} NothingYet(got: Chunks)
    requires forall i :: 0 <= i < |got| ==> got[i].None?
    ensures Sum(Sizes(got)) == 0
  {
    if got != [] {
      assert Sizes(got)[1..] == Sizes(got[1..]);
      NothingYet(got[1..]);
    }
  }

  // Repair requests.

  /** The first `limit` missing chunks from `from` on. */
  function Request(got: Chunks, from: nat, limit: nat): (r: seq<nat>)
    ensures |r| <= limit
    ensures forall i :: 0 <= i < |r| ==> from <= r[i] < |got| && got[r[i]].None?
    decreases |got| - from
  {
    if from >= |got| || limit == 0 then []
    else if got[from].Some? then Request(got, from + 1, limit)
    else [from] + Request(got, from + 1, limit - 1)
  }

  lemma {:induction false} RequestSkips(got: Chunks, from: nat, next: nat, limit: nat)
    requires from <= next && forall i :: from <= i < next && i < |got| ==> got[i].Some?
    ensures Request(got, from, limit) == Request(got, next, limit)
    decreases next - from
  {
    if from < next { RequestSkips(got, from + 1, next, limit); }
  }

  /** With `missing` listed, what is left of the request starts at `next`. */
  ghost predicate Requesting(got: Chunks, missing: seq<nat>, next: nat) {
    && |missing| <= REPAIR_LIMIT
    && missing + Request(got, next, REPAIR_LIMIT - |missing|) == Request(got, 0, REPAIR_LIMIT)
  }

  lemma RequestStart(got: Chunks, next: nat)
    requires forall i :: 0 <= i < next && i < |got| ==> got[i].Some?
    ensures Requesting(got, [], next)
  {
    RequestSkips(got, 0, next, REPAIR_LIMIT);
  }

  lemma RequestStep(got: Chunks, missing: seq<nat>, found: nat, next: nat)
    requires Requesting(got, missing, found) && |missing| < REPAIR_LIMIT
    requires found < next && found < |got| && got[found].None?
    requires forall i :: found < i < next && i < |got| ==> got[i].Some?
    ensures Requesting(got, missing + [found], next)
  {
    var limit := REPAIR_LIMIT - |missing|;
    RequestSkips(got, found + 1, next, limit - 1);
    assert Request(got, found, limit) == [found] + Request(got, next, limit - 1);
    assert missing + ([found] + Request(got, next, limit - 1)) == missing + [found] + Request(got, next, limit - 1);
  }

  lemma RequestEnds(got: Chunks, missing: seq<nat>, from: nat)
    requires Requesting(got, missing, from) && (from >= |got| || |missing| == REPAIR_LIMIT)
    ensures missing == Request(got, 0, REPAIR_LIMIT)
  {
    assert missing + [] == missing;
  }

  // The sending side.

  function ChunkCount(size: nat): nat {
    (size + CHUNK_SIZE - 1) / CHUNK_SIZE
  }

  function Slice(source: Bytes, index: nat): (b: Bytes)
    requires index < ChunkCount(|source|)
    ensures 0 < |b| <= CHUNK_SIZE
  {
    source[index * CHUNK_SIZE..Min((index + 1) * CHUNK_SIZE, |source|)]
  }

  /** The chunk packets that answer a list of requested numbers; numbers out of range are skipped. */
  function Answers(source: Bytes, seqs: seq<int>): seq<(int, Bytes)> {
    if seqs == [] then []
    else
      var last := seqs[|seqs| - 1];
      Answers(source, seqs[..|seqs| - 1])
      + (if 0 <= last < ChunkCount(|source|) then [(last, Slice(source, last))] else [])
  }

  lemma AnswersSnoc(source: Bytes, seqs: seq<int>, last: int)
    ensures Answers(source, seqs + [last]) == Answers(source, seqs)
      + (if 0 <= last < ChunkCount(|source|) then [(last, Slice(source, last))] else [])
  {
    assert (seqs + [last])[..|seqs|] == seqs;
  }

  /** The numbers in the first `count` (start, end) pairs of a packet body. */
  function Expand(body: seq<int>, count: nat): seq<int>
    requires 2 * count <= |body|
  {
    if count == 0 then [] else Expand(body, count - 1) + Interval(body[2 * count - 2], body[2 * count - 1])
  }

  // What a list of (start, end) pairs names, without the expansion.

  function Span(start: int, end: int): nat {
    if start <= end then end - start + 1 else 0
  }

  /** How many numbers the first `count` pairs name, counted once per pair. */
  function Before(body: seq<int>, count: nat): nat
    requires 2 * count <= |body|
  {
    if count == 0 then 0 else Before(body, count - 1) + Span(body[2 * count - 2], body[2 * count - 1])
  }

  /** How many of the first `count` pairs have n between their ends. */
  function Naming(body: seq<int>, count: nat, n: int): nat
    requires 2 * count <= |body|
  {
    if count == 0 then 0
    else Naming(body, count - 1, n) + (if body[2 * count - 2] <= n <= body[2 * count - 1] then 1 else 0)
  }

  /** The j-th number of pair i, both ends included, stands after all numbers of the pairs before it. */
  lemma {:induction false} ExpandAt(body: seq<int>, count: nat, i: nat, j: nat)
    requires 2 * count <= |body| && i < count && body[2 * i] + j <= body[2 * i + 1]
    ensures |Expand(body, count)| == Before(body, count) && Before(body, i) + j < Before(body, count)
    ensures Expand(body, count)[Before(body, i) + j] == body[2 * i] + j
  {
    hide Interval, Span;
    ExpandLength(body, count);
    ExpandLength(body, count - 1);
    if i < count - 1 {
      ExpandAt(body, count - 1, i, j);
    } else {
      SpanLength(body[2 * i], body[2 * i + 1]);
      assert Expand(body, count)[Before(body, i) + j] == Interval(body[2 * i], body[2 * i + 1])[j];
    }
  }

  lemma SpanLength(start: int, end: int)
    ensures Span(start, end) == |Interval(start, end)|
  {
  }

  lemma {:induction false} ExpandLength(body: seq<int>, count: nat)
    requires 2 * count <= |body|
    ensures |Expand(body, count)| == Before(body, count)
  {
    hide Interval, Span;
    if count > 0 {
      ExpandLength(body, count - 1);
      SpanLength(body[2 * count - 2], body[2 * count - 1]);
    }
  }

  /** A number stands in the expansion once for every pair that names it. */
  lemma {:induction false} ExpandCounts(body: seq<int>, count: nat, n: int)
    requires 2 * count <= |body|
    ensures multiset(Expand(body, count))[n] == Naming(body, count, n)
  {
    hide Interval;
    if count > 0 {
      ExpandCounts(body, count - 1, n);
      IntervalCounts(body[2 * count - 2], body[2 * count - 1], n);
    }
  }

  lemma {:induction false} NamingExactly(body: seq<int>, count: nat, n: int)
    requires 2 * count <= |body|
    ensures Naming(body, count, n) > 0 <==> exists i :: Names(body, count, i, n)
  {
    if count > 0 {
      NamingExactly(body, count - 1, n);
      if Naming(body, count - 1, n) > 0 {
        var i :| Names(body, count - 1, i, n);
        assert Names(body, count, i, n);
      }
      if body[2 * count - 2] <= n <= body[2 * count - 1] { assert Names(body, count, count - 1, n); }
      if i :| Names(body, count, i, n) { assert i < count - 1 ==> Names(body, count - 1, i, n); }
    }
  }

  predicate Names(body: seq<int>, count: nat, i: int, n: int)
    requires 2 * count <= |body|
  {
    0 <= i < count && body[2 * i] <= n <= body[2 * i + 1]
  }

  lemma {:induction false} IntervalCounts(start: int, end: int, n: int)
    ensures multiset(Interval(start, end))[n] == if start <= n <= end then 1 else 0
    decreases end - start
  {
    if start <= end { IntervalCounts(start, end - 1, n); }
  }

  /** The numbers of the packets, in order. */
  function Numbers(packets: seq<(int, Bytes)>): (ns: seq<int>)
    ensures |ns| == |packets|
  {
    seq(|packets|, k requires 0 <= k < |packets| => packets[k].0)
  }

  /** Every answer is a chunk of the source with its own data. */
  lemma {:induction false} AnswersGenuine(source: Bytes, seqs: seq<int>)
    ensures Genuine(Answers(source, seqs), source)
    decreases |seqs|
  {
    hide Slice, ChunkCount;
    if seqs != [] { AnswersGenuine(source, seqs[..|seqs| - 1]); }
  }

  /** Each number in range is answered as often as it was requested, no other is. */
  lemma {:induction false} AnswersOften(source: Bytes, seqs: seq<int>, n: int)
    ensures multiset(Numbers(Answers(source, seqs)))[n] == if 0 <= n < ChunkCount(|source|) then multiset(seqs)[n] else 0
    decreases |seqs|
  {
    hide Slice, ChunkCount, Numbers;
    NumbersSnoc([], (0, []));
    if seqs != [] {
      var front, last := seqs[..|seqs| - 1], seqs[|seqs| - 1];
      assert seqs == front + [last];
      AnswersOften(source, front, n);
      if 0 <= last < ChunkCount(|source|) {
        NumbersSnoc(Answers(source, front), (last, Slice(source, last)));
      } else {
        assert Answers(source, seqs) == Answers(source, front);
      }
    }
  }

  lemma NumbersSnoc(packets: seq<(int, Bytes)>, last: (int, Bytes))
    ensures Numbers([]) == []
    ensures Numbers(packets + [last]) == Numbers(packets) + [last.0]
  {
  }

  /** Numbers that are all in range are answered in the order of the request. */
  lemma {:induction false} AnswersInOrder(source: Bytes, seqs: seq<int>)
    requires forall k :: 0 <= k < |seqs| ==> 0 <= seqs[k] < ChunkCount(|source|)
    ensures Numbers(Answers(source, seqs)) == seqs
    decreases |seqs|
  {
    hide Slice, ChunkCount, Numbers;
    NumbersSnoc([], (0, []));
    if seqs != [] {
      var front, last := seqs[..|seqs| - 1], seqs[|seqs| - 1];
      AnswersInOrder(source, front);
      NumbersSnoc(Answers(source, front), (last, Slice(source, last)));
    }
  }

  /**
   What a range packet brings back. Up to 128 numbers in all: each chunk number in range comes exactly
   once per pair that has it between its ends, both included, and with its own data. Beyond that, the
   first 128 in the order of the pairs.
   */
  lemma RangesAnswered(source: Bytes, body: seq<int>, ranges: nat, n: int)
    requires 2 * ranges <= |body|
    ensures var answers := Answers(source, Take(Expand(body, ranges), REPAIR_LIMIT));
      && Genuine(answers, source)
      && (Before(body, ranges) <= 128 && 0 <= n < ChunkCount(|source|) ==>
            && multiset(Numbers(answers))[n] == Naming(body, ranges, n)
            && (Carried(answers, n) <==> exists i :: Names(body, ranges, i, n)))
      && (Before(body, ranges) > 128 ==> |Take(Expand(body, ranges), REPAIR_LIMIT)| == 128)
  {
    hide Slice, ChunkCount, Answers, Expand, Names, Genuine;
    var answers := Answers(source, Take(Expand(body, ranges), REPAIR_LIMIT));
    AnswersGenuine(source, Take(Expand(body, ranges), REPAIR_LIMIT));
    AnswersOften(source, Take(Expand(body, ranges), REPAIR_LIMIT), n);
    ExpandLength(body, ranges);
    ExpandCounts(body, ranges, n);
    NamingExactly(body, ranges, n);
    CarriedCounts(answers, n);
    if Before(body, ranges) <= 128 { assert Take(Expand(body, ranges), REPAIR_LIMIT) == Expand(body, ranges); }
  }

  /** Every pair with anything between its ends lies within the file. */
  predicate InFile(body: seq<int>, ranges: nat, chunks: nat)
    requires 2 * ranges <= |body|
  {
    forall i :: 0 <= i < ranges ==> PairInFile(body, i, chunks)
  }

  predicate PairInFile(body: seq<int>, i: nat, chunks: nat)
    requires 2 * i + 1 < |body|
  {
    body[2 * i] <= body[2 * i + 1] ==> 0 <= body[2 * i] && body[2 * i + 1] < chunks
  }

  /**
   For pairs within the file, packet by packet: the numbers between the ends of the first pair, then those
   of the second, and so on, cut off after 128.
   */
  lemma RangesInOrder(source: Bytes, body: seq<int>, ranges: nat, i: nat, j: nat)
    requires 2 * ranges <= |body| && i < ranges && body[2 * i] + j <= body[2 * i + 1]
    requires InFile(body, ranges, ChunkCount(|source|))
    ensures var answers, at := Answers(source, Take(Expand(body, ranges), REPAIR_LIMIT)), Before(body, i) + j;
      && |answers| == Min(128, Before(body, ranges))
      && (at < 128 ==>
            && at < |answers| && answers[at].0 == body[2 * i] + j
            && 0 <= answers[at].0 < ChunkCount(|source|) && answers[at].1 == Slice(source, answers[at].0))
  {
    hide Slice, ChunkCount, Answers, Expand;
    var seqs := Take(Expand(body, ranges), REPAIR_LIMIT);
    ExpandAt(body, ranges, i, j);
    ExpandInside(body, ranges, ChunkCount(|source|));
    AnswersInOrder(source, seqs);
    AnswersGenuine(source, seqs);
    if Before(body, i) + j < 128 {
      var at := Before(body, i) + j;
      assert Numbers(Answers(source, seqs))[at] == seqs[at] == body[2 * i] + j;
    }
  }

  lemma {:induction false} ExpandInside(body: seq<int>, ranges: nat, chunks: nat)
    requires 2 * ranges <= |body| && InFile(body, ranges, chunks)
    ensures forall k :: 0 <= k < |Expand(body, ranges)| ==> 0 <= Expand(body, ranges)[k] < chunks
  {
    if ranges > 0 {
      ExpandInside(body, ranges - 1, chunks);
      assert PairInFile(body, ranges - 1, chunks);
    }
  }

  lemma CarriedCounts(packets: seq<(int, Bytes)>, n: int)
    ensures Carried(packets, n) <==> multiset(Numbers(packets))[n] > 0
  {
    var ns := Numbers(packets);
    assert n in multiset(ns) <==> n in ns;
    if Carried(packets, n) {
      var k :| 0 <= k < |packets| && packets[k].0 == n;
      assert ns[k] == n;
    }
  }

  class Outgoing {
    const source: Bytes
    var credits: int
    var sent: seq<(int, Bytes)>

    constructor (source: Bytes)
      ensures this.source == source && credits == INITIAL_CREDIT && sent == []
    {
      this.source := source;
      credits, sent := INITIAL_CREDIT, [];
    }

    method SendChunk(seqno: int, data: Bytes, retransmit: bool)
      modifies `sent, `credits
      ensures sent == old(sent) + [(seqno, data)]
      ensures credits == old(credits) - (if retransmit then 0 else |data|)
    {
      sent := sent + [(seqno, data)];
      if !retransmit { credits := credits - |data|; }
    }

    /** A FLOW packet; the granted number is signed on the wire. */
    method ReceiveFlow(granted: int)
      modifies `credits
      ensures credits == old(credits) + Max(granted, 0)
    {
      credits := credits + (if granted > 0 then granted else 0);
    }

    method Resend(seqno: int)
      modifies `sent, `credits
      ensures credits == old(credits)
      ensures sent == old(sent) + Answers(source, [seqno])
    {
      assert Answers(source, [seqno][..0]) == [];
      if !(0 <= seqno < ChunkCount(|source|)) { return; }
      var length := Min(CHUNK_SIZE, |source| - seqno * CHUNK_SIZE);
      var data := source[seqno * CHUNK_SIZE..seqno * CHUNK_SIZE + length];
      SendChunk(seqno, data, true);
    }

    /** A REPAIR packet: a count and numbers; a body that ends early stops the handler. */
    method ReceiveRepair(count: nat, body: seq<int>) returns (ok: bool)
      modifies `sent, `credits
      ensures credits == old(credits)
      ensures sent == old(sent) + Answers(source, Take(body, Min(count, REPAIR_LIMIT)))
      ensures ok <==> |body| >= Min(count, REPAIR_LIMIT)
    {
      hide Answers, ChunkCount;
      AnswersNone(source);
      assert sent + [] == sent;
      var limit := Min(count, REPAIR_LIMIT);
      for i := 0 to limit
        invariant i <= |body| && credits == old(credits)
        invariant sent == old(sent) + Answers(source, body[..i])
      {
        if i >= |body| {
          assert body[..i] == Take(body, limit);
          return false;
        }
        assert body[..i + 1] == body[..i] + [body[i]];
        AnswersJoin(source, body[..i], body[i]);
        Resend(body[i]);
        assert old(sent) + (Answers(source, body[..i]) + Answers(source, [body[i]]))
            == old(sent) + Answers(source, body[..i]) + Answers(source, [body[i]]);
      }
      ok := true;
    }

    /** A REPAIR_RANGE packet: at most 32 ranges, and at most 128 numbers in all of them. */
    method ReceiveRepairRanges(count: nat, body: seq<int>) returns (ok: bool)
      modifies `sent, `credits
      ensures credits == old(credits)
      ensures var ranges := Min(Min(count, RANGE_LIMIT), |body| / 2);
        sent == old(sent) + Answers(source, Take(Expand(body, ranges), REPAIR_LIMIT))
      ensures ok <==> |body| >= 2 * Min(count, RANGE_LIMIT)
    {
      hide Answers, ChunkCount, Take;
      AnswersNone(source);
      TakeNone();
      assert sent + [] == sent;
      var used := 0;
      var limit := Min(count, RANGE_LIMIT);
      for r := 0 to limit
        invariant 2 * r <= |body| && credits == old(credits)
        invariant Min(used, REPAIR_LIMIT) == Min(|Expand(body, r)|, REPAIR_LIMIT)
        invariant sent == old(sent) + Answers(source, Take(Expand(body, r), REPAIR_LIMIT))
      {
        if 2 * r + 1 >= |body| { return false; }
        used := ResendRange(body[2 * r], body[2 * r + 1], used, old(sent), Expand(body, r));
      }
      ok := true;
    }

    /** One range of a REPAIR_RANGE packet; `used` counts the numbers seen so far. */
    method ResendRange(start: int, end: int, used: nat, ghost base: seq<(int, Bytes)>, ghost seen: seq<int>) returns (used': nat)
      requires Min(used, REPAIR_LIMIT) == Min(|seen|, REPAIR_LIMIT)
      requires sent == base + Answers(source, Take(seen, REPAIR_LIMIT))
      modifies `sent, `credits
      ensures credits == old(credits)
      ensures Min(used', REPAIR_LIMIT) == Min(|seen + Interval(start, end)|, REPAIR_LIMIT)
      ensures sent == base + Answers(source, Take(seen + Interval(start, end), REPAIR_LIMIT))
    {
      hide Answers, ChunkCount, Take;
      used' := used;
      var next := start;
      assert seen + Interval(start, start - 1) == seen;
      while next <= end
        invariant start <= next && (start <= end + 1 ==> next <= end + 1) && (start > end ==> next == start)
        invariant Min(used', REPAIR_LIMIT) == Min(|seen + Interval(start, next - 1)|, REPAIR_LIMIT)
        invariant sent == base + Answers(source, Take(seen + Interval(start, next - 1), REPAIR_LIMIT))
        invariant credits == old(credits)
      {
        used' := used' + 1;
        if used' > REPAIR_LIMIT {
          TakeFull(seen, start, next - 1, end, REPAIR_LIMIT);
          break;
        }
        var all := seen + Interval(start, next - 1);
        assert seen + Interval(start, next) == all + [next];
        TakeMore(all, next, REPAIR_LIMIT);
        AnswersJoin(source, Take(all, REPAIR_LIMIT), next);
        Resend(next);
        assert base + (Answers(source, Take(all, REPAIR_LIMIT)) + Answers(source, [next]))
            == base + Answers(source, Take(all, REPAIR_LIMIT)) + Answers(source, [next]);
        next := next + 1;
      }
    }
  }

  lemma AnswersNone(source: Bytes)
    ensures Answers(source, []) == []
  {
  }

  lemma TakeNone()
    ensures Take<int>([], REPAIR_LIMIT) == []
  {
  }

  lemma AnswersJoin(source: Bytes, seqs: seq<int>, last: int)
    ensures Answers(source, seqs + [last]) == Answers(source, seqs) + Answers(source, [last])
  {
    AnswersSnoc(source, seqs, last);
    AnswersSnoc(source, [], last);
    assert [] + [last] == [last];
  }

  // What the receiver ends up with.

  function ArriveAll(got: Chunks, packets: seq<(int, Bytes)>): (r: Chunks)
    ensures |r| == |got|
    decreases |packets|
  {
    if packets == [] then got
    else ArriveAll(Arrive(got, packets[0].0, packets[0].1), packets[1..])
  }

  /** Every chunk that has arrived is the source's chunk of that number. */
  predicate Agreed(got: Chunks, source: Bytes) {
    && |got| == ChunkCount(|source|)
    && forall i :: 0 <= i < |got| && got[i].Some? ==> got[i].value == Slice(source, i)
  }

  /** Packets made from the source, in any number and order. */
  predicate Genuine(packets: seq<(int, Bytes)>, source: Bytes) {
    forall k :: 0 <= k < |packets| ==>
      0 <= packets[k].0 < ChunkCount(|source|) && packets[k].1 == Slice(source, packets[k].0)
  }

  predicate Carried(packets: seq<(int, Bytes)>, i: int) {
    exists k :: 0 <= k < |packets| && packets[k].0 == i
  }

  lemma {:induction false} ArrivalsAgree(got: Chunks, packets: seq<(int, Bytes)>, source: Bytes)
    requires Agreed(got, source) && Genuine(packets, source)
    ensures Agreed(ArriveAll(got, packets), source)
    ensures forall i :: 0 <= i < |got| ==> (ArriveAll(got, packets)[i].Some? <==> got[i].Some? || Carried(packets, i))
    decreases |packets|
  {
    hide Slice, ChunkCount;
    if packets != [] {
      var first, rest := packets[0], packets[1..];
      var next := Arrive(got, first.0, first.1);
      assert Genuine(rest, source) by { assert forall k :: 0 <= k < |rest| ==> rest[k] == packets[k + 1]; }
      ArrivalsAgree(next, rest, source);
      forall i | 0 <= i < |got|
        ensures ArriveAll(got, packets)[i].Some? <==> got[i].Some? || Carried(packets, i)
      {
        assert next[i].Some? <==> got[i].Some? || first.0 == i;
        assert packets == [first] + rest;
        CarriedCons(first, rest, i);
      }
    }
  }

  lemma CarriedCons(first: (int, Bytes), rest: seq<(int, Bytes)>, i: int)
    ensures Carried([first] + rest, i) <==> first.0 == i || Carried(rest, i)
  {
    var all := [first] + rest;
    if Carried(rest, i) {
      var k :| 0 <= k < |rest| && rest[k].0 == i;
      assert all[k + 1].0 == i;
    }
    if first.0 == i { assert all[0].0 == i; }
  }

  lemma {:induction false} JoinedIsSource(got: Chunks, source: Bytes, k: nat)
    requires Agreed(got, source) && k <= |got| && forall i :: 0 <= i < k ==> got[i].Some?
    ensures Joined(got, k) == source[..Min(k * CHUNK_SIZE, |source|)]
  {
    if k > 0 {
      JoinedIsSource(got, source, k - 1);
      assert got[k - 1].value == Slice(source, k - 1);
    }
  }

  /**
   In every order of arrival and with every pattern of duplicates, once each chunk has come the file
   on disk is exactly the source, with nothing pending.
   */
  lemma AnyOrder(packets: seq<(int, Bytes)>, source: Bytes)
    requires Genuine(packets, source)
    requires forall i :: 0 <= i < ChunkCount(|source|) ==> Carried(packets, i)
    ensures var got := ArriveAll(seq(ChunkCount(|source|), _ => None), packets);
      && (forall i :: 0 <= i < |got| ==> got[i].Some?)
      && Joined(got, |got|) == source
  {
    hide Slice;
    var none: Chunks := seq(ChunkCount(|source|), _ => None);
    ArrivalsAgree(none, packets, source);
    assert forall i :: 0 <= i < |none| ==> Carried(packets, i);
    JoinedIsSource(ArriveAll(none, packets), source, |none|);
  }

  // Repair rounds after DONE.

  function MissingFrom(got: Chunks, from: nat): nat
    decreases |got| - from
  {
    if from >= |got| then 0 else (if got[from].None? then 1 else 0) + MissingFrom(got, from + 1)
  }

  lemma {:induction false} RequestCount(got: Chunks, from: nat, limit: nat)
    ensures |Request(got, from, limit)| == Min(limit, MissingFrom(got, from))
    decreases |got| - from
  {
    if from < |got| {
      RequestCount(got, from + 1, limit);
      if limit > 0 { RequestCount(got, from + 1, limit - 1); }
    }
  }

  /** A chunk is asked for exactly if it is missing and fewer than `limit` missing ones come before it. */
  lemma {:induction false} RequestExactly(got: Chunks, from: nat, limit: nat, n: nat)
    requires n < |got|
    ensures n in Request(got, from, limit) <==>
      from <= n && got[n].None? && MissingFrom(got, from) - MissingFrom(got, n) < limit
    decreases |got| - from
  {
    MissingFalls(got, from, n);
    if from < |got| && limit > 0 {
      RequestExactly(got, from + 1, if got[from].Some? then limit else limit - 1, n);
    }
  }

  lemma {:induction false} MissingFalls(got: Chunks, from: nat, n: nat)
    requires n < |got|
    ensures from <= n ==> MissingFrom(got, from) >= MissingFrom(got, n)
    ensures from < n ==> MissingFrom(got, from) - MissingFrom(got, n) >= if got[from].None? then 1 else 0
    decreases |got| - from
  {
    if from < n { MissingFalls(got, from + 1, n); }
  }

  predicate Ascending(r: seq<int>) {
    forall i, j :: 0 <= i < j < |r| ==> r[i] < r[j]
  }

  lemma {:induction false} RequestAscends(got: Chunks, from: nat, limit: nat)
    ensures Ascending(Request(got, from, limit))
    decreases |got| - from
  {
    if from < |got| && limit > 0 {
      if got[from].Some? {
        RequestAscends(got, from + 1, limit);
      } else {
        RequestAscends(got, from + 1, limit - 1);
        assert Request(got, from, limit) == [from] + Request(got, from + 1, limit - 1);
      }
    }
  }

  lemma {:induction false} ArriveCounts(got: Chunks, from: nat, index: nat, payload: Bytes)
    requires index < |got| && got[index].None?
    ensures MissingFrom(Arrive(got, index, payload), from) == MissingFrom(got, from) - (if from <= index then 1 else 0)
    decreases |got| - from
  {
    if from < |got| { ArriveCounts(got, from + 1, index, payload); }
  }

  /** Each requested chunk that comes back was missing, so it lowers the count by one. */
  lemma {:induction false} AnswersCount(got: Chunks, source: Bytes, seqs: seq<int>)
    requires |got| == ChunkCount(|source|)
    requires forall i :: 0 <= i < |seqs| ==> 0 <= seqs[i] < |got| && got[seqs[i]].None?
    requires Ascending(seqs)
    ensures Genuine(Answers(source, seqs), source)
    ensures MissingFrom(ArriveAll(got, Answers(source, seqs)), 0) == MissingFrom(got, 0) - |seqs|
    ensures forall i :: 0 <= i < |got| && (|seqs| > 0 ==> i > seqs[|seqs| - 1]) ==> ArriveAll(got, Answers(source, seqs))[i] == got[i]
    decreases |seqs|
  {
    hide Slice, ChunkCount;
    if seqs != [] {
      var front, last := seqs[..|seqs| - 1], seqs[|seqs| - 1];
      AnswersCount(got, source, front);
      var before := ArriveAll(got, Answers(source, front));
      ArriveAllSnoc(got, Answers(source, front), (last, Slice(source, last)));
      ArriveCounts(before, 0, last, Slice(source, last));
    }
  }

  lemma {:induction false} ArriveAllSnoc(got: Chunks, packets: seq<(int, Bytes)>, last: (int, Bytes))
    ensures ArriveAll(got, packets + [last]) == Arrive(ArriveAll(got, packets), last.0, last.1)
    decreases |packets|
  {
    if packets == [] {
      assert [last][1..] == [];
    } else {
      assert (packets + [last])[1..] == packets[1..] + [last];
      ArriveAllSnoc(Arrive(got, packets[0].0, packets[0].1), packets[1..], last);
    }
  }

  /** One loss-free round: the receiver asks, the sender answers, every answer arrives. */
  function Round(got: Chunks, source: Bytes): (r: Chunks)
    ensures |r| == |got|
  {
    ArriveAll(got, Answers(source, Take(Request(got, 0, REPAIR_LIMIT), REPAIR_LIMIT)))
  }

  function Rounds(got: Chunks, source: Bytes, k: nat): (r: Chunks)
    ensures |r| == |got|
  {
    if k == 0 then got else Round(Rounds(got, source, k - 1), source)
  }

  lemma RoundLowers(got: Chunks, source: Bytes)
    requires Agreed(got, source)
    ensures Agreed(Round(got, source), source)
    ensures MissingFrom(Round(got, source), 0) == MissingFrom(got, 0) - Min(REPAIR_LIMIT, MissingFrom(got, 0))
  {
    hide Slice, ChunkCount, Answers, Genuine;
    var r: seq<int> := Request(got, 0, REPAIR_LIMIT);
    RequestCount(got, 0, REPAIR_LIMIT);
    RequestAscends(got, 0, REPAIR_LIMIT);
    assert Take(r, REPAIR_LIMIT) == r;
    AnswersCount(got, source, r);
    ArrivalsAgree(got, Answers(source, r), source);
  }

  /**
   Each loss-free round lowers the number of missing chunks by min(128, missing), so
   ceil(missing / 128) rounds complete the file with every chunk equal to its source slice.
   */
  lemma {:induction false} RoundsComplete(got: Chunks, source: Bytes, k: nat)
    requires Agreed(got, source)
    ensures Agreed(Rounds(got, source, k), source)
    ensures MissingFrom(Rounds(got, source, k), 0) == Max(0, MissingFrom(got, 0) - REPAIR_LIMIT * k)
    ensures k >= (MissingFrom(got, 0) + REPAIR_LIMIT - 1) / REPAIR_LIMIT ==>
      var r := Rounds(got, source, k);
      && (forall i :: 0 <= i < |r| ==> r[i].Some?)
      && Joined(r, |r|) == source
  {
    hide Slice, Round, Agreed;
    if k > 0 {
      RoundsComplete(got, source, k - 1);
      RoundLowers(Rounds(got, source, k - 1), source);
    }
    var r := Rounds(got, source, k);
    if MissingFrom(r, 0) == 0 { AllThere(r, source, 0); }
  }

  lemma {:induction false} AllThere(got: Chunks, source: Bytes, from: nat)
    requires MissingFrom(got, from) == 0
    ensures forall i :: from <= i < |got| ==> got[i].Some?
    ensures from == 0 && Agreed(got, source) ==> Joined(got, |got|) == source
    decreases |got| - from
  {
    if from < |got| { AllThere(got, source, from + 1); }
    if from == 0 && Agreed(got, source) { JoinedIsSource(got, source, |got|); }
  }
}
