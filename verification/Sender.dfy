/**
 The v3 sender: the serial loop, and the bounded producer/consumer pipeline that must put the same
 bytes on the stream. `source` gives what reading each source block yields at sending time, so the
 source may have changed or become unreadable since it was hashed.
 */
module Sender {
  import opened Common
  import opened Manifests

  type Reader = nat -> Option<Bytes>

  /** A block read and rechecked against the manifest. */
  function Reread(h: Hasher, m: Manifest, source: Reader, index: nat): (r: Result<Bytes, string>)
    requires index < |m.blocks| == BlockCount(m.size)
    ensures r.Ok? ==> |r.value| == Length(m.size, index) && h(r.value) == m.blocks[index]
  {
    match source(index)
    case None => Err("read failed")
    case Some(bytes) =>
      if |bytes| != Length(m.size, index) then Err("read failed")
      else if h(bytes) != m.blocks[index] then Err("source changed during transfer")
      else Ok(bytes)
  }

  /** Bytes put on the stream, and the error that ended the sending, if any. */
  datatype Sent = Sent(bytes: Bytes, error: Option<string>)

  /** What the serial loop sends from block `index` on. */
  function Serial(h: Hasher, m: Manifest, wanted: seq<nat>, source: Reader, index: nat): Sent
    requires |wanted| == |m.blocks| == BlockCount(m.size) && index <= |wanted|
    decreases |wanted| - index
  {
    if index == |wanted| then Sent([], None)
    else if wanted[index] == 0 then Serial(h, m, wanted, source, index + 1)
    else
      match Reread(h, m, source, index)
      case Err(e) => Sent([], Some(e))
      case Ok(bytes) =>
        var rest := Serial(h, m, wanted, source, index + 1);
        Sent(bytes + rest.bytes, rest.error)
  }

  class Stream {
    var sent: Bytes

    constructor ()
      ensures sent == []
    {
      sent := [];
    }

    method Write(bytes: Bytes)
      modifies this
      ensures sent == old(sent) + bytes
    {
      sent := sent + bytes;
    }
  }

  /** The serial mode, selected by an environment variable. */
  method SendSerial(stream: Stream, h: Hasher, m: Manifest, wanted: seq<nat>, source: Reader)
    returns (error: Option<string>, payloadBytes: nat)
    requires |wanted| == |m.blocks| == BlockCount(m.size)
    modifies stream
    ensures stream.sent == old(stream.sent) + Serial(h, m, wanted, source, 0).bytes
    ensures error == Serial(h, m, wanted, source, 0).error
    ensures payloadBytes == |Serial(h, m, wanted, source, 0).bytes|
  {
    hide Reread, Length, BlockCount, Serial, Resumes;
    payloadBytes := 0;
    ghost var before := stream.sent;
    ghost var all := Serial(h, m, wanted, source, 0);
    ghost var goal := Sent(before + all.bytes, all.error);
    ResumesStart(before, all);
    for index := 0 to |wanted|
      invariant |stream.sent| == |before| + payloadBytes
      invariant Resumes(stream.sent, Serial(h, m, wanted, source, index), goal)
    {
      SerialUnfold(h, m, wanted, source, index);
      if wanted[index] == 0 { continue; }
      var block := Reread(h, m, source, index);
      if block.Err? {
        ResumesEnd(stream.sent, Sent([], Some(block.error)), goal);
        return Some(block.error), payloadBytes;
      }
      ResumesNext(stream.sent, block.value, Serial(h, m, wanted, source, index + 1), goal);
      stream.Write(block.value);
      payloadBytes := payloadBytes + |block.value|;
    }
    SerialDone(h, m, wanted, source);
    ResumesEnd(stream.sent, Sent([], None), goal);
    error := None;
  }

  /** After `put`, sending `rest` completes `goal`. */
  predicate Resumes(put: Bytes, rest: Sent, goal: Sent) {
    put + rest.bytes == goal.bytes && rest.error == goal.error
  }

  lemma ResumesStart(before: Bytes, all: Sent)
    ensures Resumes(before, all, Sent(before + all.bytes, all.error))
  {
  }

  lemma ResumesNext(put: Bytes, block: Bytes, rest: Sent, goal: Sent)
    requires Resumes(put, Sent(block + rest.bytes, rest.error), goal)
    ensures Resumes(put + block, rest, goal)
  {
    assert put + (block + rest.bytes) == put + block + rest.bytes;
  }

  lemma ResumesEnd(put: Bytes, rest: Sent, goal: Sent)
    requires Resumes(put, rest, goal) && rest.bytes == []
    ensures put == goal.bytes && rest.error == goal.error
  {
    assert put + [] == put;
  }

  lemma SerialUnfold(h: Hasher, m: Manifest, wanted: seq<nat>, source: Reader, index: nat)
    requires |wanted| == |m.blocks| == BlockCount(m.size) && index < |wanted|
    ensures Serial(h, m, wanted, source, index) == (
      var rest := Serial(h, m, wanted, source, index + 1);
      if wanted[index] == 0 then rest
      else match Reread(h, m, source, index)
        case Err(e) => Sent([], Some(e))
        case Ok(bytes) => Sent(bytes + rest.bytes, rest.error))
  {
  }

  lemma SerialDone(h: Hasher, m: Manifest, wanted: seq<nat>, source: Reader)
    requires |wanted| == |m.blocks| == BlockCount(m.size)
    ensures Serial(h, m, wanted, source, |wanted|) == Sent([], None)
  {
  }

  /** Without an error the serial loop sends exactly the requested lengths. */
  lemma {:induction false} SerialLength(h: Hasher, m: Manifest, wanted: seq<nat>, source: Reader, index: nat)
    requires |wanted| == |m.blocks| == BlockCount(m.size) && index <= |wanted|
    requires forall i :: 0 <= i < |wanted| ==> wanted[i] <= 1
    requires Serial(h, m, wanted, source, index).error.None?
    ensures |Serial(h, m, wanted, source, index).bytes| == Sum(Selected(m.size, wanted, 1)[index..])
    decreases |wanted| - index
  {
    hide Length, BlockCount;
    if index < |wanted| {
      var ls := Selected(m.size, wanted, 1);
      assert ls[index..][0] == ls[index] && ls[index..][1..] == ls[index + 1..];
      SerialLength(h, m, wanted, source, index + 1);
    }
  }

  // The pipeline: a producer task, a queue of two, and the sending task as consumer.

  type Item = Result<Bytes, string>

  datatype Producer =
    | Looking(index: nat)             // about to look at block `index`
    | Offering(index: nat, item: Item) // blocked in send, or about to be
    | Ended                           // the sending half of the queue is dropped

  datatype Consumer =
    | Waiting
    | Sending(block: Bytes)
    | Done(error: Option<string>)     // the receiving half of the queue is dropped

  datatype Pipe = Pipe(producer: Producer, queue: seq<Item>, consumer: Consumer, sent: Bytes, payloadBytes: nat)

  datatype Plan = Plan(h: Hasher, m: Manifest, wanted: seq<nat>, source: Reader)

  ghost predicate Planned(c: Plan) {
    && |c.wanted| == |c.m.blocks| == BlockCount(c.m.size)
    && forall i :: 0 <= i < |c.wanted| ==> c.wanted[i] <= 1
  }

  const Start := Pipe(Looking(0), [], Waiting, [], 0)

  datatype Step =
    | Produce          // look at the next block, skip it or read it
    | Push             // queue the block; needs room unless the queue is closed
    | Take             // take from the queue, or see that the producer is gone
    | Put              // write the block to the stream
    | Lose(count: nat) // the connection breaks, perhaps after part of a block

  function Reused(c: Plan): nat
    requires |c.wanted| == BlockCount(c.m.size)
  {
    Sum(Selected(c.m.size, c.wanted, 0))
  }

  /** One step of either task; None when that task is blocked or finished. */
  function Next(c: Plan, p: Pipe, step: Step): Option<Pipe>
    requires |c.wanted| == |c.m.blocks| == BlockCount(c.m.size)
  {
    match step
    case Produce =>
      if !p.producer.Looking? then None
      else
        var i := p.producer.index;
        if i >= |c.wanted| then Some(p.(producer := Ended))
        else if c.wanted[i] == 0 then Some(p.(producer := Looking(i + 1)))
        else if p.consumer.Done? then Some(p.(producer := Ended))
        else Some(p.(producer := Offering(i, Reread(c.h, c.m, c.source, i))))
    case Push =>
      if !p.producer.Offering? then None
      else if p.consumer.Done? then Some(p.(producer := Ended))
      else if |p.queue| >= 2 then None
      else
        var item := p.producer.item;
        Some(p.(queue := p.queue + [item],
                producer := if item.Err? then Ended else Looking(p.producer.index + 1)))
    case Take =>
      if !p.consumer.Waiting? then None
      else if p.queue != [] then
        match p.queue[0]
        case Ok(block) => Some(p.(queue := p.queue[1..], consumer := Sending(block)))
        case Err(e) => Some(p.(queue := p.queue[1..], consumer := Done(Some(e))))
      else if !p.producer.Ended? then None
      else if p.payloadBytes + Reused(c) == c.m.size then Some(p.(consumer := Done(None)))
      else Some(p.(consumer := Done(Some("source pipeline ended early"))))
    case Put =>
      if !p.consumer.Sending? then None
      else Some(p.(consumer := Waiting, sent := p.sent + p.consumer.block,
                   payloadBytes := p.payloadBytes + |p.consumer.block|))
    case Lose(count) =>
      if p.consumer.Done? then None
      else
        var part := if p.consumer.Sending? && count <= |p.consumer.block| then p.consumer.block[..count] else [];
        Some(p.(consumer := Done(Some("connection lost")), sent := p.sent + part))
  }

  /** What a list of items followed by `tail` will put on the stream. */
  function Drain(items: seq<Item>, tail: Sent): Sent {
    if items == [] then tail
    else
      match items[0]
      case Err(e) => Sent([], Some(e))
      case Ok(block) =>
        var rest := Drain(items[1..], tail);
        Sent(block + rest.bytes, rest.error)
  }

  function ToProduce(c: Plan, p: Producer): Sent
    requires |c.wanted| == |c.m.blocks| == BlockCount(c.m.size)
    requires p.Looking? ==> p.index <= |c.wanted|
    requires p.Offering? ==> p.index < |c.wanted|
  {
    match p
    case Looking(i) => Serial(c.h, c.m, c.wanted, c.source, i)
    case Offering(i, item) => Drain([item], Serial(c.h, c.m, c.wanted, c.source, i + 1))
    case Ended => Sent([], None)
  }

  function InHand(p: Pipe): seq<Item> {
    if p.consumer.Sending? then [Ok(p.consumer.block)] else []
  }

  function All(c: Plan): Sent
    requires |c.wanted| == |c.m.blocks| == BlockCount(c.m.size)
  {
    Serial(c.h, c.m, c.wanted, c.source, 0)
  }

  /** What is still to come, seen from the consumer. */
  function Ahead(c: Plan, p: Pipe): Sent
    requires |c.wanted| == |c.m.blocks| == BlockCount(c.m.size)
    requires p.producer.Looking? ==> p.producer.index <= |c.wanted|
    requires p.producer.Offering? ==> p.producer.index < |c.wanted|
  {
    Drain(InHand(p) + p.queue, ToProduce(c, p.producer))
  }

  ghost predicate Inv(c: Plan, p: Pipe) {
    && Planned(c)
    && (p.producer.Looking? ==> p.producer.index <= |c.wanted|)
    && (p.producer.Offering? ==> p.producer.index < |c.wanted|)
    && |p.queue| <= 2
    && p.sent <= All(c).bytes
    && (!p.consumer.Done? ==>
          && p.payloadBytes == |p.sent|
          && p.sent + Ahead(c, p).bytes == All(c).bytes
          && Ahead(c, p).error == All(c).error)
    && (p.consumer.Done? ==> Outcome(c, p))
  }

  /** How the sending ended: as the serial loop would, or by a lost connection. */
  ghost predicate Outcome(c: Plan, p: Pipe)
    requires Planned(c) && p.consumer.Done?
  {
    || p.consumer.error == Some("connection lost")
    || (p.sent == All(c).bytes && p.consumer.error == All(c).error)
  }

  lemma {:induction false} DrainSplit(a: seq<Item>, b: seq<Item>, tail: Sent)
    ensures Drain(a + b, tail) == Drain(a, Drain(b, tail))
  {
    if a == [] {
      assert a + b == b;
    } else {
      assert (a + b)[0] == a[0] && (a + b)[1..] == a[1..] + b;
      DrainSplit(a[1..], b, tail);
    }
  }

  /** Looking at a block does not change what is still to come. */
  lemma ProduceSame(c: Plan, p: Pipe)
    requires Inv(c, p) && Next(c, p, Produce).Some? && !p.consumer.Done?
    ensures var q := Next(c, p, Produce).value;
      && (q.producer.Looking? ==> q.producer.index <= |c.wanted|) && (q.producer.Offering? ==> q.producer.index < |c.wanted|)
      && ToProduce(c, q.producer) == ToProduce(c, p.producer)
  {
    hide Reread, Drain, Serial, Reused, All, Ahead, Outcome;
    LookedSame(c, p.producer.index);
  }

  /** Skipping a block, or having read it, leaves the same to be sent. */
  lemma LookedSame(c: Plan, i: nat)
    requires |c.wanted| == |c.m.blocks| == BlockCount(c.m.size) && i <= |c.wanted|
    ensures i == |c.wanted| ==> ToProduce(c, Looking(i)) == ToProduce(c, Ended)
    ensures i < |c.wanted| && c.wanted[i] == 0 ==> ToProduce(c, Looking(i)) == ToProduce(c, Looking(i + 1))
    ensures i < |c.wanted| && c.wanted[i] != 0 ==>
      ToProduce(c, Looking(i)) == ToProduce(c, Offering(i, Reread(c.h, c.m, c.source, i)))
  {
    hide Reread, Drain, Serial, BlockCount;
    if i < |c.wanted| {
      SerialUnfold(c.h, c.m, c.wanted, c.source, i);
      DrainOne(Reread(c.h, c.m, c.source, i), Serial(c.h, c.m, c.wanted, c.source, i + 1));
    } else {
      SerialDone(c.h, c.m, c.wanted, c.source);
    }
  }

  lemma ProduceKeeps(c: Plan, p: Pipe)
    requires Inv(c, p) && Next(c, p, Produce).Some?
    ensures Inv(c, Next(c, p, Produce).value)
  {
    hide Reread, Drain, Serial, Reused, ToProduce;
    if !p.consumer.Done? { ProduceSame(c, p); }
  }

  lemma DrainOne(item: Item, tail: Sent)
    ensures Drain([item], tail) == match item
      case Err(e) => Sent([], Some(e))
      case Ok(block) => Sent(block + tail.bytes, tail.error)
  {
    assert [item][1..] == [];
  }

  lemma PushKeeps(c: Plan, p: Pipe)
    requires Inv(c, p) && Next(c, p, Push).Some?
    ensures Inv(c, Next(c, p, Push).value)
  {
    hide Reread, Drain, Selected, Sum, Serial;
    if !p.consumer.Done? {
      var q := Next(c, p, Push).value;
      var item := p.producer.item;
      var tail := Serial(c.h, c.m, c.wanted, c.source, p.producer.index + 1);
      DrainOne(item, tail);
      DrainOne(item, Sent([], None));
      assert Drain([item], ToProduce(c, q.producer)) == ToProduce(c, p.producer);
      assert InHand(q) + q.queue == InHand(p) + p.queue + [item];
      DrainSplit(InHand(p) + p.queue, [item], ToProduce(c, q.producer));
    }
  }

  lemma TakeKeeps(c: Plan, p: Pipe)
    requires Inv(c, p) && Next(c, p, Take).Some?
    ensures Inv(c, Next(c, p, Take).value)
  {
    hide Reread, Selected, Serial;
    var q := Next(c, p, Take).value;
    assert InHand(p) + p.queue == p.queue;
    if p.queue != [] {
      assert p.queue[0].Ok? ==> InHand(q) + q.queue == p.queue;
      assert p.queue[0].Err? ==> p.sent + [] == p.sent;
    } else {
      assert Ahead(c, p) == Sent([], None);
      assert p.sent + [] == p.sent;
      FinalCheck(c, p);
    }
  }

  /** When the producer ran to its end, the byte counts add up, so the final check cannot fail. */
  lemma FinalCheck(c: Plan, p: Pipe)
    requires Planned(c) && p.sent == All(c).bytes && All(c).error.None? && p.payloadBytes == |p.sent|
    ensures p.payloadBytes + Reused(c) == c.m.size
  {
    hide Reread, Serial;
    SerialLength(c.h, c.m, c.wanted, c.source, 0);
    assert Selected(c.m.size, c.wanted, 1)[0..] == Selected(c.m.size, c.wanted, 1);
    Accounting(c.m.size, c.wanted);
  }

  lemma PutKeeps(c: Plan, p: Pipe)
    requires Inv(c, p) && Next(c, p, Put).Some?
    ensures Inv(c, Next(c, p, Put).value)
  {
    hide Reread, Drain, Selected, Sum, Serial;
    var q := Next(c, p, Put).value;
    var block := p.consumer.block;
    DrainSplit(InHand(p), p.queue, ToProduce(c, p.producer));
    DrainOne(Ok(block), Drain(p.queue, ToProduce(c, p.producer)));
    assert InHand(q) + q.queue == p.queue;
    assert p.sent + (block + Ahead(c, q).bytes) == p.sent + block + Ahead(c, q).bytes;
  }

  lemma LoseKeeps(c: Plan, p: Pipe, count: nat)
    requires Inv(c, p) && Next(c, p, Lose(count)).Some?
    ensures Inv(c, Next(c, p, Lose(count)).value)
  {
    hide Reread, Drain, Selected, Sum, Serial, ToProduce, Outcome;
    if p.consumer.Sending? && count <= |p.consumer.block| {
      var block := p.consumer.block;
      var rest := Drain(p.queue, ToProduce(c, p.producer));
      DrainSplit(InHand(p), p.queue, ToProduce(c, p.producer));
      DrainOne(Ok(block), rest);
      PartOfBlock(p.sent, block, rest.bytes, count);
    } else {
      assert p.sent + [] == p.sent;
    }
    LostOutcome(c, Next(c, p, Lose(count)).value);
  }

  lemma PartOfBlock(sent: Bytes, block: Bytes, rest: Bytes, count: nat)
    requires count <= |block|
    ensures sent + block[..count] <= sent + (block + rest)
  {
    assert sent + (block + rest) == sent + block[..count] + (block[count..] + rest);
  }

  lemma LostOutcome(c: Plan, p: Pipe)
    requires Planned(c) && p.consumer == Done(Some("connection lost"))
    ensures Outcome(c, p)
  {
  }

  lemma StepKeeps(c: Plan, p: Pipe, step: Step)
    requires Inv(c, p) && Next(c, p, step).Some?
    ensures Inv(c, Next(c, p, step).value)
  {
    hide Inv, Next;
    match step
    case Produce => ProduceKeeps(c, p);
    case Push => PushKeeps(c, p);
    case Take => TakeKeeps(c, p);
    case Put => PutKeeps(c, p);
    case Lose(count) => LoseKeeps(c, p, count);
  }

  ghost predicate Run(c: Plan, p: Pipe, steps: seq<Step>, q: Pipe)
    requires Planned(c)
    decreases |steps|
  {
    if steps == [] then q == p
    else Next(c, p, steps[0]).Some? && Run(c, Next(c, p, steps[0]).value, steps[1..], q)
  }

  lemma {:induction false} RunKeeps(c: Plan, p: Pipe, steps: seq<Step>, q: Pipe)
    requires Inv(c, p) && Run(c, p, steps, q)
    ensures Inv(c, q)
    decreases |steps|
  {
    hide Next, Inv;
    assert Planned(c) by { InvPlanned(c, p); }
    if steps != [] {
      StepKeeps(c, p, steps[0]);
      RunKeeps(c, Next(c, p, steps[0]).value, steps[1..], q);
    }
  }

  lemma InvPlanned(c: Plan, p: Pipe)
    requires Inv(c, p)
    ensures Planned(c)
  {
  }

  /** Blocks held at once: one at each task and those in the queue. */
  function Held(p: Pipe): nat {
    (if p.producer.Offering? then 1 else 0) + |p.queue| + (if p.consumer.Sending? then 1 else 0)
  }

  /**
   The pipeline refines the serial loop. In every interleaving the stream holds a prefix of the
   serial bytes; unless the connection is lost, the end is the serial end: the same bytes and the
   same error. At most four blocks are held.
   */
  lemma PipelineRefinesSerial(c: Plan, steps: seq<Step>, p: Pipe)
    requires Planned(c) && Run(c, Start, steps, p)
    ensures p.sent <= All(c).bytes
    ensures p.consumer.Done? && p.consumer.error != Some("connection lost") ==>
      p.sent == All(c).bytes && p.consumer.error == All(c).error
    ensures p.consumer == Done(None) ==> |p.sent| + Reused(c) == c.m.size
    ensures Held(p) <= 4
  {
    hide Next, Reread;
    assert Inv(c, Start) by {
      assert InHand(Start) + Start.queue == [];
      assert Start.sent + All(c).bytes == All(c).bytes;
    }
    RunKeeps(c, Start, steps, p);
    if p.consumer == Done(None) { FinalCheck(c, p.(payloadBytes := |p.sent|)); }
  }

  lemma NeverEndsEarly(c: Plan, steps: seq<Step>, p: Pipe)
    requires Planned(c) && Run(c, Start, steps, p)
    ensures p.consumer != Done(Some("source pipeline ended early"))
  {
    hide Next, Reread, Run, Reused;
    PipelineRefinesSerial(c, steps, p);
    SerialErrors(c, 0);
  }

  lemma {:induction false} SerialErrors(c: Plan, index: nat)
    requires Planned(c) && index <= |c.wanted|
    ensures Serial(c.h, c.m, c.wanted, c.source, index).error in
      {None, Some("read failed"), Some("source changed during transfer")}
    decreases |c.wanted| - index
  {
    if index < |c.wanted| { SerialErrors(c, index + 1); }
  }

  /** The connection can break at every byte of a block, also right behind its last one. */
  lemma LoseAnywhere(c: Plan, p: Pipe, count: nat)
    requires |c.wanted| == |c.m.blocks| == BlockCount(c.m.size)
    requires p.consumer.Sending? && count <= |p.consumer.block|
    ensures Next(c, p, Lose(count)).Some?
    ensures Next(c, p, Lose(count)).value.sent == p.sent + p.consumer.block[..count]
    ensures Next(c, p, Lose(count)).value.consumer == Done(Some("connection lost"))
  {
  }

  lemma RunFirst(c: Plan, p: Pipe, step: Step, q: Pipe, steps: seq<Step>, end: Pipe)
    requires Planned(c) && Next(c, p, step) == Some(q) && Run(c, q, steps, end)
    ensures Run(c, p, [step] + steps, end)
  {
    hide Next;
    assert ([step] + steps)[0] == step && ([step] + steps)[1..] == steps;
  }

  /**
   The bound is reached: when the first four blocks are requested and can be read, the pipeline can hold
   all four at once, one being sent, two queued and one waiting for the queue.
   */
  lemma FourHeld(c: Plan) returns (steps: seq<Step>, p: Pipe)
    requires Planned(c) && |c.wanted| >= 4
    requires forall i :: 0 <= i < 4 ==> c.wanted[i] == 1 && Reread(c.h, c.m, c.source, i).Ok?
    ensures Run(c, Start, steps, p) && Held(p) == 4 && |p.queue| == 2 && p.sent == []
  {
    hide Reread;
    var b0, b1 := Reread(c.h, c.m, c.source, 0), Reread(c.h, c.m, c.source, 1);
    var b2, b3 := Reread(c.h, c.m, c.source, 2), Reread(c.h, c.m, c.source, 3);
    var s := Sending(b0.value);
    var p1, p2 := Pipe(Offering(0, b0), [], Waiting, [], 0), Pipe(Looking(1), [b0], Waiting, [], 0);
    var p3, p4 := Pipe(Looking(1), [], s, [], 0), Pipe(Offering(1, b1), [], s, [], 0);
    var p5, p6 := Pipe(Looking(2), [b1], s, [], 0), Pipe(Offering(2, b2), [b1], s, [], 0);
    var p7 := Pipe(Looking(3), [b1, b2], s, [], 0);
    p := Pipe(Offering(3, b3), [b1, b2], s, [], 0);
    assert [b1] + [b2] == [b1, b2] && [] + [b0] == [b0] && [] + [b1] == [b1] && [b0][1..] == [];
    RunFirst(c, p7, Produce, p, [], p);
    RunFirst(c, p6, Push, p7, [Produce] + [], p);
    RunFirst(c, p5, Produce, p6, [Push] + ([Produce] + []), p);
    RunFirst(c, p4, Push, p5, [Produce] + ([Push] + ([Produce] + [])), p);
    RunFirst(c, p3, Produce, p4, [Push] + ([Produce] + ([Push] + ([Produce] + []))), p);
    var rest := [Produce] + ([Push] + ([Produce] + ([Push] + ([Produce] + []))));
    RunFirst(c, p2, Take, p3, rest, p);
    RunFirst(c, p1, Push, p2, [Take] + rest, p);
    RunFirst(c, Start, Produce, p1, [Push] + ([Take] + rest), p);
    steps := [Produce] + ([Push] + ([Take] + rest));
  }

  // The pipeline cannot hang.

  function ProducerWork(c: Plan, p: Producer): nat {
    match p
    case Looking(i) => if i <= |c.wanted| then 4 * (|c.wanted| - i) + 1 else 1
    case Offering(i, _) => if i <= |c.wanted| then 4 * (|c.wanted| - i) else 0
    case Ended => 0
  }

  function Work(c: Plan, p: Pipe): nat {
    ProducerWork(c, p.producer) + 2 * |p.queue|
    + (match p.consumer case Waiting => 1 case Sending(_) => 2 case Done(_) => 0)
  }

  /** Every step of every schedule does some of a finite amount of work. */
  lemma StepWorks(c: Plan, p: Pipe, step: Step)
    requires Inv(c, p) && Next(c, p, step).Some?
    ensures Work(c, Next(c, p, step).value) < Work(c, p)
  {
    hide Reread, Drain, Serial, Selected, Sum;
  }

  /** Unless both tasks are finished, one of them can go on. */
  lemma NeverStuck(c: Plan, p: Pipe) returns (step: Step)
    requires Inv(c, p) && !(p.producer.Ended? && p.consumer.Done?)
    ensures !step.Lose? && Next(c, p, step).Some?
  {
    hide Reread, Drain, Serial, Selected, Sum;
    if p.producer.Looking? { return Produce; }
    if p.consumer.Sending? { return Put; }
    if p.consumer.Done? { return Push; }
    if p.queue != [] || p.producer.Ended? { return Take; }
    return Push;
  }
}
