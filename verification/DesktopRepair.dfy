/**
 Repair requests of the desktop v2 receiver: missing numbers are sent as ranges when that is at least
 as short as the list, and the sender resends what the packet names.
 */
module DesktopRepair {
  import opened Common
  import opened Endian

  const WORD: nat := 0x1_0000_0000
  const MAX_BATCH: nat := 128
  const MAX_RANGES: nat := 32

  type Word = x: int | 0 <= x < WORD

  datatype Range = Range(start: Word, end: Word)

  predicate Ascending(s: seq<int>) {
    forall i, j :: 0 <= i < j < |s| ==> s[i] < s[j]
  }

  // The set of numbers, sorted.

  function Inserted(s: seq<Word>, x: Word): (r: seq<Word>)
    requires Ascending(s)
    ensures Ascending(r) && |r| <= |s| + 1
    ensures forall n :: n in r <==> n == x || n in s
  {
    if s == [] then [x]
    else
      var front, last := s[..|s| - 1], s[|s| - 1];
      assert s == front + [last];
      if last == x then s
      else if last < x then s + [x]
      else
        var r := Inserted(front, x);
        AscendingSnoc(front, last);
        AscendingSnoc(r, last);
        r + [last]
  }

  lemma AscendingSnoc(front: seq<Word>, last: Word)
    ensures Ascending(front + [last]) <==> Ascending(front) && forall n :: n in front ==> n < last
  {
    var all := front + [last];
    assert forall i :: 0 <= i < |front| ==> all[i] == front[i];
    if Ascending(all) {
      forall n | n in front ensures n < last {
        var i :| 0 <= i < |front| && front[i] == n;
        assert all[i] < all[|front|];
      }
    }
    if Ascending(front) && forall n :: n in front ==> n < last {
      forall i, j | 0 <= i < j < |all| ensures all[i] < all[j] {
        assert front[i] in front;
      }
    }
  }

  function Normalized(seqs: seq<Word>): (r: seq<Word>)
    ensures Ascending(r) && |r| <= |seqs|
    ensures forall n :: n in r <==> n in seqs
  {
    if seqs == [] then []
    else
      assert seqs == seqs[..|seqs| - 1] + [seqs[|seqs| - 1]];
      Inserted(Normalized(seqs[..|seqs| - 1]), seqs[|seqs| - 1])
  }

  // Ranges.

  /** Sorted, disjoint and not even adjacent. */
  predicate Apart(ranges: seq<Range>) {
    && (forall i :: 0 <= i < |ranges| ==> ranges[i].start <= ranges[i].end)
    && forall i, j :: 0 <= i < j < |ranges| ==> (ranges[i].end as int) + 1 < ranges[j].start
  }

  predicate Covered(ranges: seq<Range>, n: int) {
    exists i :: 0 <= i < |ranges| && ranges[i].start <= n <= ranges[i].end
  }

  /** The maximal runs of the numbers, the first `limit` of them if there are more. */
  ghost predicate Runs(seqs: seq<Word>, ranges: seq<Range>, limit: nat) {
    && Apart(ranges) && |ranges| <= limit && (seqs != [] ==> ranges != [])
    && (forall n :: Covered(ranges, n) ==> n in seqs)
    && (forall n :: n in seqs ==> Covered(ranges, n) || (|ranges| == limit && n > (ranges[|ranges| - 1].end as int) + 1))
  }

  /** With the numbers before `i` read, `ranges` are the finished runs and start..prev the current one. */
  ghost predicate Reading(norm: seq<Word>, ranges: seq<Range>, i: nat, start: Word, prev: Word) {
    && 0 < i <= |norm| && prev == norm[i - 1] && Apart(ranges + [Range(start, prev)])
    && forall n :: Covered(ranges + [Range(start, prev)], n) <==> n in norm[..i]
  }

  lemma CoveredSnoc(ranges: seq<Range>, last: Range, n: int)
    ensures Covered(ranges + [last], n) <==> Covered(ranges, n) || last.start <= n <= last.end
  {
    var all := ranges + [last];
    if Covered(ranges, n) {
      var i :| 0 <= i < |ranges| && ranges[i].start <= n <= ranges[i].end;
      assert all[i].start <= n <= all[i].end;
    }
    if last.start <= n <= last.end { assert all[|ranges|].start <= n <= all[|ranges|].end; }
  }

  lemma ReadOne(norm: seq<Word>)
    requires norm != []
    ensures Reading(norm, [], 1, norm[0], norm[0])
  {
    forall n ensures Covered([] + [Range(norm[0], norm[0])], n) <==> n in norm[..1] {
      CoveredSnoc([], Range(norm[0], norm[0]), n);
    }
  }

  lemma ReadAdjacent(norm: seq<Word>, ranges: seq<Range>, i: nat, start: Word, prev: Word)
    requires Ascending(norm) && Reading(norm, ranges, i, start, prev) && i < |norm| && norm[i] == (prev as int) + 1
    ensures Reading(norm, ranges, i + 1, start, norm[i])
  {
    var cur, now, next := norm[i], ranges + [Range(start, prev)], ranges + [Range(start, norm[i])];
    assert now[|ranges|] == Range(start, prev);
    assert norm[..i + 1] == norm[..i] + [cur];
    assert Apart(next) by {
      assert forall k :: 0 <= k < |ranges| ==> next[k] == now[k];
    }
    forall n ensures Covered(next, n) <==> n in norm[..i + 1] {
      CoveredSnoc(ranges, Range(start, prev), n);
      CoveredSnoc(ranges, Range(start, cur), n);
    }
  }

  lemma ReadGap(norm: seq<Word>, ranges: seq<Range>, i: nat, start: Word, prev: Word)
    requires Ascending(norm) && Reading(norm, ranges, i, start, prev) && i < |norm| && norm[i] != (prev as int) + 1
    ensures Reading(norm, ranges + [Range(start, prev)], i + 1, norm[i], norm[i])
  {
    var cur, now := norm[i], ranges + [Range(start, prev)];
    assert now[|ranges|] == Range(start, prev);
    assert prev < cur;
    assert norm[..i + 1] == norm[..i] + [cur];
    ApartSnoc(now, Range(cur, cur));
    forall n ensures Covered(now + [Range(cur, cur)], n) <==> n in norm[..i + 1] {
      CoveredSnoc(now, Range(cur, cur), n);
    }
  }

  lemma ApartSnoc(ranges: seq<Range>, last: Range)
    requires Apart(ranges) && last.start <= last.end
    requires ranges != [] ==> (ranges[|ranges| - 1].end as int) + 1 < last.start
    ensures Apart(ranges + [last])
  {
  }

  lemma ReadAll(seqs: seq<Word>, ranges: seq<Range>, start: Word, prev: Word, limit: nat)
    requires Reading(Normalized(seqs), ranges, |Normalized(seqs)|, start, prev) && |ranges| < limit
    ensures Runs(seqs, ranges + [Range(start, prev)], limit)
  {
    var norm := Normalized(seqs);
    assert norm[..|norm|] == norm;
  }

  lemma ReadEnough(seqs: seq<Word>, ranges: seq<Range>, i: nat, start: Word, prev: Word, limit: nat)
    requires Reading(Normalized(seqs), ranges, i, start, prev) && |ranges| + 1 == limit
    requires i < |Normalized(seqs)| && Normalized(seqs)[i] != (prev as int) + 1
    ensures Runs(seqs, ranges + [Range(start, prev)], limit)
  {
    var norm := Normalized(seqs);
    forall n | n in seqs
      ensures Covered(ranges + [Range(start, prev)], n) || n > (prev as int) + 1
    {
      var k :| 0 <= k < |norm| && norm[k] == n;
      if k < i { assert norm[..i][k] == n; }
    }
    assert forall n :: n in norm[..i] ==> n in norm;
  }

  method BuildRepairRanges(seqs: seq<Word>, maxRanges: nat) returns (ranges: seq<Range>)
    requires maxRanges > 0
    ensures Runs(seqs, ranges, maxRanges)
  {
    hide Reading, Normalized, Runs;
    ranges := [];
    if |seqs| == 0 {
      NoRuns(maxRanges);
      assert seqs == [];
      return;
    }
    var normalized := Normalized(seqs);
    assert seqs[0] in normalized;
    var start, prev := normalized[0], normalized[0];
    ReadOne(normalized);
    var i := 1;
    while i < |normalized|
      invariant 0 < i <= |normalized| && |ranges| < maxRanges
      invariant Reading(normalized, ranges, i, start, prev)
    {
      var cur := normalized[i];
      if cur == (prev as int) + 1 {
        ReadAdjacent(normalized, ranges, i, start, prev);
        prev := cur;
        i := i + 1;
        continue;
      }
      ReadGap(normalized, ranges, i, start, prev);
      if |ranges| + 1 >= maxRanges { ReadEnough(seqs, ranges, i, start, prev, maxRanges); }
      ranges := ranges + [Range(start, prev)];
      if |ranges| >= maxRanges { return; }
      start, prev := cur, cur;
      i := i + 1;
    }
    ReadAll(seqs, ranges, start, prev, maxRanges);
    ranges := ranges + [Range(start, prev)];
  }

  lemma NoRuns(limit: nat)
    ensures Runs([], [], limit)
  {
  }

  // The packets: a 16-bit count and big-endian 32-bit numbers.

  function ReadU16(b: Bytes): nat
    requires |b| >= 2
  {
    BigEndian(b[..2])
  }

  function ReadU32(b: Bytes, at: nat): Word
    requires at + 4 <= |b|
  {
    WrittenBack(b[at..at + 4]);
    Sizes();
    BigEndian(b[at..at + 4])
  }

  lemma U32RoundTrip(n: Word)
    ensures BigEndian(ToBytes(n, 4)) == n
  {
    Sizes();
    ReadBack(n, 4);
  }

  lemma U16RoundTrip(n: nat)
    requires n < 0x1_0000
    ensures BigEndian(ToBytes(n, 2)) == n
  {
    Sizes();
    ReadBack(n, 2);
  }

  function Words(ws: seq<Word>): (b: Bytes)
    ensures |b| == 4 * |ws|
  {
    if ws == [] then [] else Words(ws[..|ws| - 1]) + ToBytes(ws[|ws| - 1], 4)
  }

  lemma {:induction false} WordAt(ws: seq<Word>, k: nat)
    requires k < |ws|
    ensures ReadU32(Words(ws), 4 * k) == ws[k]
  {
    hide BigEndian, ToBytes;
    var front, last := ws[..|ws| - 1], ws[|ws| - 1];
    if k < |ws| - 1 {
      WordAt(front, k);
      assert Words(ws)[4 * k..4 * k + 4] == Words(front)[4 * k..4 * k + 4];
    } else {
      U32RoundTrip(last);
      assert Words(ws)[4 * k..4 * k + 4] == ToBytes(last, 4);
    }
  }

  /** The ranges as start, end, start, end, ... */
  function Flat(ranges: seq<Range>): (ws: seq<Word>)
    ensures |ws| == 2 * |ranges|
    ensures forall i :: 0 <= i < |ranges| ==> ws[2 * i] == ranges[i].start && ws[2 * i + 1] == ranges[i].end
  {
    if ranges == [] then []
    else Flat(ranges[..|ranges| - 1]) + [ranges[|ranges| - 1].start, ranges[|ranges| - 1].end]
  }

  function EncodeList(seqs: seq<Word>): Bytes {
    ToBytes(|Take(seqs, MAX_BATCH)|, 2) + Words(Take(seqs, MAX_BATCH))
  }

  function EncodeRanges(ranges: seq<Range>): Bytes {
    ToBytes(|Take(ranges, MAX_RANGES)|, 2) + Words(Flat(Take(ranges, MAX_RANGES)))
  }

  /** The numbers a list packet names: as many as it announces and carries. */
  function DecodeList(body: Bytes): (seqs: seq<Word>) {
    if |body| < 2 then []
    else
      var n := Min(ReadU16(body), (|body| - 2) / 4);
      seq(n, i requires 0 <= i < n => ReadU32(body, 2 + 4 * i))
  }

  function DecodePairs(body: Bytes): (ranges: seq<Range>) {
    if |body| < 2 then []
    else
      var n := Min(ReadU16(body), (|body| - 2) / 8);
      seq(n, i requires 0 <= i < n => Range(ReadU32(body, 2 + 8 * i), ReadU32(body, 6 + 8 * i)))
  }

  function Expand(ranges: seq<Range>): seq<int> {
    if ranges == [] then []
    else Expand(ranges[..|ranges| - 1]) + Interval(ranges[|ranges| - 1].start, ranges[|ranges| - 1].end)
  }

  /** The numbers a range packet names, at most 128 of them; a backward range names none. */
  function DecodeRanges(body: Bytes): seq<int> {
    Take(Expand(DecodePairs(body)), MAX_BATCH)
  }

  datatype Packet = ListPacket(body: Bytes) | RangePacket(body: Bytes)

  /** What the sender resends on a packet. */
  function Resent(p: Packet): seq<int> {
    match p
    case ListPacket(body) => DecodeList(body)
    case RangePacket(body) => DecodeRanges(body)
  }

  /** Ranges are used when twice their number is at most the number of listed numbers. */
  predicate UsesRanges(seqs: seq<Word>, ranges: seq<Range>) {
    ranges != [] && 2 * |ranges| <= Min(MAX_BATCH, |seqs|)
  }

  function Request(seqs: seq<Word>, ranges: seq<Range>): Packet {
    if UsesRanges(seqs, ranges) then RangePacket(EncodeRanges(ranges)) else ListPacket(EncodeList(seqs))
  }

  method SendRepair(seqs: seq<Word>) returns (packet: Option<Packet>, ghost ranges: seq<Range>)
    ensures packet.None? <==> seqs == []
    ensures packet.Some? ==> Runs(seqs, ranges, MAX_RANGES) && packet.value == Request(seqs, ranges)
  {
    hide Runs, EncodeList, EncodeRanges;
    ranges := [];
    if |seqs| == 0 { return None, ranges; }
    var runs := BuildRepairRanges(seqs, MAX_RANGES);
    ranges := runs;
    if |runs| > 0 && |runs| * 2 <= Min(MAX_BATCH, |seqs|) {
      var body := WriteRanges(runs);
      return Some(RangePacket(body)), ranges;
    }
    var body := WriteList(seqs);
    packet := Some(ListPacket(body));
  }

  method WriteRanges(ranges: seq<Range>) returns (packet: Bytes)
    ensures packet == EncodeRanges(ranges)
  {
    hide Flat, Words;
    var count := Min(MAX_RANGES, |ranges|);
    var body: Bytes := [];
    WordsNone();
    for i := 0 to count
      invariant body == Words(Flat(ranges[..i]))
    {
      var start, end := ranges[i].start, ranges[i].end;
      assert ranges[..i + 1] == ranges[..i] + [ranges[i]];
      FlatSnoc(ranges[..i], ranges[i]);
      var ws := Flat(ranges[..i]);
      WordsSnoc(ws, start);
      WordsSnoc(ws + [start], end);
      assert ws + [start] + [end] == ws + [start, end];
      body := body + ToBytes(start, 4) + ToBytes(end, 4);
    }
    packet := ToBytes(count, 2) + body;
  }

  method WriteList(seqs: seq<Word>) returns (packet: Bytes)
    ensures packet == EncodeList(seqs)
  {
    hide Words;
    var count := Min(MAX_BATCH, |seqs|);
    var body: Bytes := [];
    WordsNone();
    for i := 0 to count
      invariant body == Words(seqs[..i])
    {
      assert seqs[..i + 1] == seqs[..i] + [seqs[i]];
      WordsSnoc(seqs[..i], seqs[i]);
      body := body + ToBytes(seqs[i], 4);
    }
    packet := ToBytes(count, 2) + body;
  }

  lemma WordsNone()
    ensures Words([]) == [] && Flat([]) == []
  {
  }

  lemma WordsSnoc(ws: seq<Word>, last: Word)
    ensures Words(ws + [last]) == Words(ws) + ToBytes(last, 4)
  {
    assert (ws + [last])[..|ws|] == ws;
  }

  lemma FlatSnoc(ranges: seq<Range>, last: Range)
    ensures Flat(ranges + [last]) == Flat(ranges) + [last.start, last.end]
  {
    assert (ranges + [last])[..|ranges|] == ranges;
  }

  lemma ExpandSnoc(ranges: seq<Range>, last: Range)
    ensures Expand(ranges + [last]) == Expand(ranges) + Interval(last.start, last.end)
  {
    assert (ranges + [last])[..|ranges|] == ranges;
  }

  // The handlers of the sender.

  method OnRepair(body: Bytes) returns (resent: seq<Word>)
    ensures resent == DecodeList(body)
  {
    hide ReadU16, ReadU32;
    resent := [];
    if |body| < 2 { return; }
    var count, offset := ReadU16(body), 2;
    for i := 0 to count
      invariant offset == 2 + 4 * i && offset <= |body|
      invariant |resent| == i && forall k :: 0 <= k < i ==> resent[k] == ReadU32(body, 2 + 4 * k)
    {
      if offset + 4 > |body| { break; }
      resent := resent + [ReadU32(body, offset)];
      offset := offset + 4;
    }
  }

  method OnRepairRange(body: Bytes) returns (resent: seq<int>)
    ensures resent == DecodeRanges(body)
  {
    hide Expand, Take, ReadU16, ReadU32;
    resent := [];
    ExpandNone();
    if |body| < 2 { return; }
    var count, offset, total := ReadU16(body), 2, 0;
    ghost var pairs := DecodePairs(body);
    assert pairs[..0] == [];
    var i := 0;
    while i < count
      invariant 0 <= i <= |pairs| && offset == 2 + 8 * i && total == |resent| <= MAX_BATCH
      invariant resent == Take(Expand(pairs[..i]), MAX_BATCH)
      invariant |pairs| == Min(count, (|body| - 2) / 8)
      decreases count - i
    {
      if offset + 8 > |body| {
        assert pairs[..i] == pairs;
        return;
      }
      var start, end := ReadU32(body, offset), ReadU32(body, offset + 4);
      offset := offset + 8;
      assert pairs[i] == Range(start, end);
      assert pairs[..i + 1] == pairs[..i] + [pairs[i]];
      ExpandSnoc(pairs[..i], pairs[i]);
      i := i + 1;
      if end < start {
        assert Expand(pairs[..i - 1]) + [] == Expand(pairs[..i - 1]);
        continue;
      }
      resent := ResendSpan(start, end, resent, Expand(pairs[..i - 1]));
      total := |resent|;
      if total >= MAX_BATCH {
        FullAlready(pairs, i);
        return;
      }
    }
    assert pairs[..i] == pairs;
  }

  /** The inner loop over one range. */
  method ResendSpan(start: Word, end: Word, before: seq<int>, ghost seen: seq<int>) returns (resent: seq<int>)
    requires start <= end && before == Take(seen, MAX_BATCH)
    ensures resent == Take(seen + Interval(start, end), MAX_BATCH)
  {
    hide Take;
    resent := before;
    var next: int := start;
    assert seen + Interval(start, start - 1) == seen;
    while next <= end && |resent| < MAX_BATCH
      invariant start <= next <= end + 1
      invariant resent == Take(seen + Interval(start, next - 1), MAX_BATCH)
      decreases end - next
    {
      var all := seen + Interval(start, next - 1);
      assert seen + Interval(start, next) == all + [next];
      TakeMore(all, next, MAX_BATCH);
      TakeLength(all, MAX_BATCH);
      resent := resent + [next];
      next := next + 1;
    }
    if next <= end {
      TakeLength(seen + Interval(start, next - 1), MAX_BATCH);
      TakeFull(seen, start, next - 1, end, MAX_BATCH);
    }
  }

  lemma TakeLength<T>(s: seq<T>, n: nat)
    ensures |Take(s, n)| == Min(|s|, n)
  {
  }

  lemma ExpandNone()
    ensures Expand([]) == [] && Take<int>([], MAX_BATCH) == []
  {
  }

  lemma {:induction false} FullAlready(pairs: seq<Range>, i: nat)
    requires i <= |pairs| && |Take(Expand(pairs[..i]), MAX_BATCH)| >= MAX_BATCH
    ensures Take(Expand(pairs), MAX_BATCH) == Take(Expand(pairs[..i]), MAX_BATCH)
    decreases |pairs| - i
  {
    if i == |pairs| {
      assert pairs[..i] == pairs;
    } else {
      assert pairs[..i + 1] == pairs[..i] + [pairs[i]];
      ExpandSnoc(pairs[..i], pairs[i]);
      FullAlready(pairs, i + 1);
    }
  }

  // What is resent is what was requested.

  /** A packet body: a 16-bit count, words, and perhaps something behind them. */
  function Body(n: nat, ws: seq<Word>, tail: Bytes): (b: Bytes)
    ensures |b| == 2 + 4 * |ws| + |tail|
  {
    ToBytes(n, 2) + Words(ws) + tail
  }

  lemma BodyCount(n: nat, ws: seq<Word>, tail: Bytes)
    requires n < 0x1_0000
    ensures ReadU16(Body(n, ws, tail)) == n
  {
    hide Words, BigEndian, ToBytes;
    U16RoundTrip(n);
    assert Body(n, ws, tail)[..2] == ToBytes(n, 2);
  }

  lemma BodyWord(n: nat, ws: seq<Word>, tail: Bytes, k: nat)
    requires k < |ws|
    ensures ReadU32(Body(n, ws, tail), 2 + 4 * k) == ws[k]
  {
    hide Words, BigEndian, ToBytes;
    WordAt(ws, k);
    assert Body(n, ws, tail)[2 + 4 * k..6 + 4 * k] == Words(ws)[4 * k..4 * k + 4];
  }

  /** A list body is read up to its count, or as far as it goes; a rest too short for a number is ignored. */
  lemma ListBodies(n: nat, ws: seq<Word>, tail: Bytes)
    requires n < 0x1_0000 && (n <= |ws| || |tail| < 4)
    ensures DecodeList(Body(n, ws, tail)) == Take(ws, n)
  {
    hide Body, ReadU32, ReadU16;
    BodyCount(n, ws, tail);
    forall k | 0 <= k < |ws| ensures ReadU32(Body(n, ws, tail), 2 + 4 * k) == ws[k] { BodyWord(n, ws, tail, k); }
  }

  lemma BodyPair(n: nat, ranges: seq<Range>, tail: Bytes, k: nat)
    requires k < |ranges|
    ensures ReadU32(Body(n, Flat(ranges), tail), 2 + 8 * k) == ranges[k].start
    ensures ReadU32(Body(n, Flat(ranges), tail), 6 + 8 * k) == ranges[k].end
  {
    hide Body, ReadU32, Flat;
    var ws := Flat(ranges);
    BodyWord(n, ws, tail, 2 * k);
    BodyWord(n, ws, tail, 2 * k + 1);
    assert ws[2 * k] == ranges[k].start && ws[2 * k + 1] == ranges[k].end;
  }

  lemma PairsLength(body: Bytes, pairs: nat, rest: nat)
    requires |body| == 2 + 8 * pairs + rest && (ReadU16(body) <= pairs || rest < 8)
    ensures |DecodePairs(body)| == Min(ReadU16(body), pairs)
  {
    hide ReadU16, ReadU32;
  }

  lemma PairAt(body: Bytes, k: nat)
    requires k < |DecodePairs(body)|
    ensures 10 + 8 * k <= |body| && DecodePairs(body)[k] == Range(ReadU32(body, 2 + 8 * k), ReadU32(body, 6 + 8 * k))
  {
    hide ReadU16, ReadU32;
  }

  /** And a range body likewise, pair by pair. */
  lemma RangeBodies(n: nat, ranges: seq<Range>, tail: Bytes)
    requires n < 0x1_0000 && (n <= |ranges| || |tail| < 8)
    ensures DecodePairs(Body(n, Flat(ranges), tail)) == Take(ranges, n)
  {
    hide Body, ReadU32, ReadU16, Flat, DecodePairs;
    var body := Body(n, Flat(ranges), tail);
    BodyCount(n, Flat(ranges), tail);
    PairsLength(body, |ranges|, |tail|);
    forall k | 0 <= k < |DecodePairs(body)| ensures DecodePairs(body)[k] == ranges[k] {
      PairAt(body, k);
      BodyPair(n, ranges, tail, k);
    }
  }

  lemma NoTail(n: nat, ws: seq<Word>)
    ensures Body(n, ws, []) == ToBytes(n, 2) + Words(ws)
  {
  }

  lemma ListRoundTrip(seqs: seq<Word>)
    ensures DecodeList(EncodeList(seqs)) == Take(seqs, MAX_BATCH)
  {
    hide Body, DecodeList, Words, ToBytes;
    var ws := Take(seqs, MAX_BATCH);
    NoTail(|ws|, ws);
    ListBodies(|ws|, ws, []);
  }

  lemma RangesRoundTrip(ranges: seq<Range>)
    requires |ranges| <= MAX_RANGES
    ensures DecodePairs(EncodeRanges(ranges)) == ranges
  {
    hide Body, DecodePairs, Words, ToBytes, Flat;
    assert Take(ranges, MAX_RANGES) == ranges == Take(ranges, |ranges|);
    NoTail(|ranges|, Flat(ranges));
    RangeBodies(|ranges|, ranges, []);
  }

  lemma {:induction false} ExpandCovers(ranges: seq<Range>)
    requires Apart(ranges)
    ensures forall n :: n in Expand(ranges) <==> Covered(ranges, n)
    ensures Distinct(Expand(ranges))
  {
    hide Interval;
    if ranges != [] {
      var front, last := ranges[..|ranges| - 1], ranges[|ranges| - 1];
      assert ranges == front + [last];
      assert Apart(front);
      ExpandCovers(front);
      var span := Interval(last.start, last.end);
      forall n ensures n in Expand(ranges) <==> Covered(ranges, n) {
        CoveredSnoc(front, last, n);
        assert n in span <==> last.start <= n <= last.end by { IntervalHas(last.start, last.end, n); }
      }
      forall n | n in Expand(front) ensures n !in span {
        IntervalHas(last.start, last.end, n);
        assert forall i :: 0 <= i < |front| ==> front[i] == ranges[i] && ranges[i].end < last.start;
      }
      IntervalDistinct(last.start, last.end);
      DistinctJoin(Expand(front), span);
    }
  }

  predicate Distinct(s: seq<int>) {
    forall i, j :: 0 <= i < j < |s| ==> s[i] != s[j]
  }

  lemma IntervalHas(start: int, end: int, n: int)
    ensures n in Interval(start, end) <==> start <= n <= end
  {
    if start <= n <= end { assert Interval(start, end)[n - start] == n; }
  }

  lemma IntervalDistinct(start: int, end: int)
    ensures Distinct(Interval(start, end))
  {
  }

  lemma DistinctJoin(a: seq<int>, b: seq<int>)
    requires Distinct(a) && Distinct(b) && forall n :: n in a ==> n !in b
    ensures Distinct(a + b)
  {
    var all := a + b;
    forall i, j | 0 <= i < j < |all| ensures all[i] != all[j] {
      if i < |a| <= j {
        assert a[i] in a && b[j - |a|] in b;
      }
    }
  }

  /** Distinct numbers taken from a list are at most as many as the list has entries. */
  lemma {:induction false} NoMoreThan(s: seq<int>, from: seq<int>)
    requires Distinct(s) && forall n :: n in s ==> n in from
    ensures |s| <= |from|
    decreases |s|
  {
    if s != [] {
      var last := s[|s| - 1];
      assert last in s && last in from;
      var i :| 0 <= i < |from| && from[i] == last;
      var rest := from[..i] + from[i + 1..];
      var front := s[..|s| - 1];
      forall n | n in front ensures n in rest {
        var at :| 0 <= at < |front| && front[at] == n;
        assert s[at] in s && n in from && n != last;
        var k :| 0 <= k < |from| && from[k] == n;
        assert if k < i then rest[k] == n else rest[k - 1] == n;
      }
      NoMoreThan(front, rest);
    }
  }

  /**
   The sender resends exactly the requested numbers, each at most once, when they are sent as a list
   or form at most 32 runs; otherwise exactly those up to the end of the 32nd run. It never resends
   a number that was not requested, and the range body is never longer than the list body.
   */
  lemma RepairExact(seqs: seq<Word>, ranges: seq<Range>)
    requires seqs != [] && |seqs| <= MAX_BATCH && Runs(seqs, ranges, MAX_RANGES)
    ensures forall n :: n in Resent(Request(seqs, ranges)) <==>
      n in seqs && (UsesRanges(seqs, ranges) ==> n <= ranges[|ranges| - 1].end)
    ensures !UsesRanges(seqs, ranges) || |ranges| < MAX_RANGES ==> forall n :: n in Resent(Request(seqs, ranges)) <==> n in seqs
    ensures UsesRanges(seqs, ranges) ==> Distinct(Resent(Request(seqs, ranges)))
    ensures |Request(seqs, ranges).body| == Min(|EncodeList(seqs)|, |EncodeRanges(ranges)|)
    ensures Request(seqs, ranges).RangePacket? <==> |EncodeRanges(ranges)| <= |EncodeList(seqs)|
  {
    hide Words, Flat, Expand;
    if UsesRanges(seqs, ranges) {
      RangesRoundTrip(ranges);
      ExpandCovers(ranges);
      NoMoreThan(Expand(ranges), seqs);
      assert Resent(Request(seqs, ranges)) == Expand(ranges);
      assert forall i :: 0 <= i < |ranges| ==> ranges[i].end <= ranges[|ranges| - 1].end;
    } else {
      ListRoundTrip(seqs);
    }
  }
}
