/**
 Repair between the two implementations: a desktop receiver asks an Android sender, and an Android receiver
 asks a desktop sender. The packets are the same bytes; Android reads the numbers as signed.
 */
module MixedRepair {
  import opened Common
  import opened Endian
  import A = AndroidTransfer
  import D = DesktopRepair

  function Signed(w: D.Word): int {
    if w < 0x8000_0000 then w else w - 0x1_0000_0000
  }

  /** The numbers behind the count, as Android's buffer yields them. */
  function Ints(body: Bytes): seq<int> {
    if |body| < 2 then []
    else seq((|body| - 2) / 4, i requires 0 <= i < (|body| - 2) / 4 => Signed(D.ReadU32(body, 2 + 4 * i)))
  }

  lemma IntsAt(n: nat, ws: seq<D.Word>)
    requires n < 0x1_0000 && forall i :: 0 <= i < |ws| ==> ws[i] < 0x8000_0000
    ensures Ints(D.Body(n, ws, [])) == ws && D.ReadU16(D.Body(n, ws, [])) == n
  {
    hide D.Body, D.ReadU32, D.ReadU16;
    D.BodyCount(n, ws, []);
    forall k | 0 <= k < |ws| ensures D.ReadU32(D.Body(n, ws, []), 2 + 4 * k) == ws[k] { D.BodyWord(n, ws, [], k); }
  }

  /** Both expand the same pairs to the same numbers in the same order. */
  lemma {:induction false} SameExpansion(ranges: seq<D.Range>)
    ensures A.Expand(D.Flat(ranges), |ranges|) == D.Expand(ranges)
  {
    if ranges != [] {
      var front, last := ranges[..|ranges| - 1], ranges[|ranges| - 1];
      SameExpansion(front);
      PrefixExpansion(D.Flat(ranges), D.Flat(front), |front|);
    }
  }

  lemma {:induction false} PrefixExpansion(body: seq<int>, front: seq<int>, count: nat)
    requires front <= body && 2 * count <= |front|
    ensures A.Expand(body, count) == A.Expand(front, count)
  {
    if count > 0 { PrefixExpansion(body, front, count - 1); }
  }

  /** Numbers that both sides read alike, and that are chunks of the file. */
  predicate InFile(seqs: seq<int>, source: Bytes) {
    forall i :: 0 <= i < |seqs| ==> 0 <= seqs[i] < A.ChunkCount(|source|) && seqs[i] < 0x8000_0000
  }

  /** The numbers an Android sender is asked for by a desktop packet, before it looks whether they exist. */
  function Asked(packet: D.Packet): seq<int>
    requires |packet.body| >= 2
  {
    var count, ints := D.ReadU16(packet.body), Ints(packet.body);
    match packet
    case ListPacket(_) => Take(ints, Min(count, A.REPAIR_LIMIT))
    case RangePacket(_) => Take(A.Expand(ints, Min(Min(count, A.RANGE_LIMIT), |ints| / 2)), A.REPAIR_LIMIT)
  }

  method Answer(sender: A.Outgoing, packet: D.Packet) returns (ok: bool)
    requires |packet.body| >= 2
    modifies sender
    ensures sender.credits == old(sender.credits)
    ensures sender.sent == old(sender.sent) + A.Answers(sender.source, Asked(packet))
  {
    hide Ints, D.ReadU16;
    match packet
    case ListPacket(body) => ok := sender.ReceiveRepair(D.ReadU16(body), Ints(body));
    case RangePacket(body) => ok := sender.ReceiveRepairRanges(D.ReadU16(body), Ints(body));
  }

  /** An Android sender is asked by a desktop packet for what a desktop sender would resend. */
  lemma SameAsked(seqs: seq<D.Word>, ranges: seq<D.Range>)
    requires seqs != [] && |seqs| <= D.MAX_BATCH && D.Runs(seqs, ranges, D.MAX_RANGES)
    requires forall i :: 0 <= i < |seqs| ==> seqs[i] < 0x8000_0000
    ensures |D.Request(seqs, ranges).body| >= 2
    ensures Asked(D.Request(seqs, ranges)) == D.Resent(D.Request(seqs, ranges))
  {
    hide D.Words, D.Flat, D.Expand, A.Expand, Ints, D.ReadU16, D.ReadU32, D.DecodeList, D.DecodePairs, D.Runs, ToBytes;
    if D.UsesRanges(seqs, ranges) {
      RunsSmall(seqs, ranges);
      var ws := D.Flat(ranges);
      FlatSmall(ranges);
      D.NoTail(|ranges|, ws);
      IntsAt(|ranges|, ws);
      SameExpansion(ranges);
      D.RangesRoundTrip(ranges);
      assert Take(ranges, D.MAX_RANGES) == ranges;
    } else {
      D.NoTail(|seqs|, seqs);
      IntsAt(|seqs|, seqs);
      D.ListRoundTrip(seqs);
      assert Take(seqs, D.MAX_BATCH) == seqs;
    }
  }

  /** Runs of small numbers have small ends. */
  lemma RunsSmall(seqs: seq<D.Word>, ranges: seq<D.Range>)
    requires D.Runs(seqs, ranges, D.MAX_RANGES) && forall i :: 0 <= i < |seqs| ==> seqs[i] < 0x8000_0000
    ensures |ranges| <= D.MAX_RANGES
    ensures forall i :: 0 <= i < |ranges| ==> ranges[i].start < 0x8000_0000 && ranges[i].end < 0x8000_0000
  {
    forall i | 0 <= i < |ranges| ensures ranges[i].start < 0x8000_0000 && ranges[i].end < 0x8000_0000 {
      assert D.Covered(ranges, ranges[i].start) && D.Covered(ranges, ranges[i].end);
    }
  }

  lemma {:induction false} FlatSmall(ranges: seq<D.Range>)
    requires forall i :: 0 <= i < |ranges| ==> ranges[i].start < 0x8000_0000 && ranges[i].end < 0x8000_0000
    ensures forall i :: 0 <= i < |D.Flat(ranges)| ==> D.Flat(ranges)[i] < 0x8000_0000
  {
    if ranges != [] { FlatSmall(ranges[..|ranges| - 1]); }
  }

  /**
   A desktop receiver asks an Android sender for up to 128 chunks of the file. Every answer is a chunk of
   the source with its own data. As a list, or in at most 31 runs, exactly the requested chunks come; in 32
   runs, those up to the end of the last run. No other chunk comes.
   */
  method DesktopAsksAndroid(seqs: seq<D.Word>, sender: A.Outgoing) returns (ghost ranges: seq<D.Range>, ghost answers: seq<(int, Bytes)>)
    requires seqs != [] && |seqs| <= 128 && InFile(seqs, sender.source)
    modifies sender
    ensures sender.credits == old(sender.credits) && sender.sent == old(sender.sent) + answers
    ensures A.Genuine(answers, sender.source) && |answers| <= 128
    ensures forall n :: A.Carried(answers, n) ==> n in seqs
    ensures 2 * |ranges| > |seqs| || |ranges| < 32 ==> forall n :: n in seqs ==> A.Carried(answers, n)
    ensures ranges != [] && forall n :: n in seqs && n <= ranges[|ranges| - 1].end ==> A.Carried(answers, n)
    ensures D.Runs(seqs, ranges, 32)
  {
    hide A.Answers, A.Genuine, Asked, D.Resent, D.Request, D.Runs;
    var packet;
    packet, ranges := D.SendRepair(seqs);
    SameAsked(seqs, ranges);
    answers := A.Answers(sender.source, Asked(packet.value));
    RequestAnswered(sender.source, seqs, ranges);
    var ok := Answer(sender, packet.value);
  }

  lemma RequestAnswered(source: Bytes, seqs: seq<D.Word>, ranges: seq<D.Range>)
    requires seqs != [] && |seqs| <= D.MAX_BATCH && D.Runs(seqs, ranges, D.MAX_RANGES) && InFile(seqs, source)
    ensures var answers := A.Answers(source, D.Resent(D.Request(seqs, ranges)));
      && A.Genuine(answers, source) && |answers| <= 128
      && (forall n :: A.Carried(answers, n) ==> n in seqs)
      && (2 * |ranges| > |seqs| || |ranges| < 32 ==> forall n :: n in seqs ==> A.Carried(answers, n))
      && ranges != []
      && (forall n :: n in seqs && n <= ranges[|ranges| - 1].end ==> A.Carried(answers, n))
  {
    hide A.Answers, A.Genuine, D.Resent, D.EncodeList, D.EncodeRanges;
    var resent := D.Resent(D.Request(seqs, ranges));
    D.RepairExact(seqs, ranges);
    ResentShort(seqs, ranges);
    forall k | 0 <= k < |resent| ensures 0 <= resent[k] < A.ChunkCount(|source|) { assert resent[k] in resent; }
    A.AnswersInOrder(source, resent);
    A.AnswersGenuine(source, resent);
    forall n ensures A.Carried(A.Answers(source, resent), n) <==> n in resent {
      CarriedIn(A.Answers(source, resent), resent, n);
    }
  }

  lemma CarriedIn(packets: seq<(int, Bytes)>, numbers: seq<int>, n: int)
    requires A.Numbers(packets) == numbers
    ensures A.Carried(packets, n) <==> n in numbers
  {
    if k :| 0 <= k < |packets| && packets[k].0 == n { assert numbers[k] == n; }
    if n in numbers {
      var k :| 0 <= k < |numbers| && numbers[k] == n;
      assert packets[k].0 == n;
    }
  }

  lemma ResentShort(seqs: seq<D.Word>, ranges: seq<D.Range>)
    ensures |D.Resent(D.Request(seqs, ranges))| <= 128
  {
    hide D.DecodePairs, D.DecodeList, D.Expand, D.EncodeList, D.EncodeRanges;
    D.ListRoundTrip(seqs);
  }

  /** An Android receiver asks a desktop sender: what is resent are its first 128 missing chunks, in order. */
  method AndroidAsksDesktop(receiver: A.Incoming) returns (missing: seq<nat>, resent: seq<D.Word>)
    requires receiver.Valid() && receiver.done && receiver.chunks <= 0x8000_0000
    ensures resent == missing == A.Request(receiver.got, 0, 128)
  {
    hide A.Incoming.Valid, A.Request;
    missing := receiver.FirstMissing();
    RequestWords(receiver);
    var body := D.WriteList(missing);
    resent := D.OnRepair(body);
    D.ListRoundTrip(missing);
  }

  lemma RequestWords(receiver: A.Incoming)
    requires receiver.Valid() && receiver.chunks <= 0x8000_0000
    ensures forall i :: 0 <= i < |A.Request(receiver.got, 0, 128)| ==> A.Request(receiver.got, 0, 128)[i] < 0x8000_0000
  {
  }
}
