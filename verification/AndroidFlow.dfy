/**
 Flow credit of the Android v2 transfer over a network that loses, reorders and duplicates packets.
 Every packet carries a counter and is accepted as the replay window decides. On the sender, the
 credit check, the sending and the debit are separate steps, and grants may come in between.
 */
module AndroidFlow {
  import opened Common
  import opened AndroidTransfer
  import Packets
  import ReplayWindow

  datatype Packet = Offer | Chunk(index: nat) | Done | Flow(grant: nat) | Other

  /** One direction: packet i was sealed with counter i + 1. */
  datatype Link = Link(log: seq<Packet>, accepted: set<nat>)

  datatype Phase =
    | Checking // in waitForCredit
    | Cleared  // enough credit was seen
    | Unpaid   // the chunk is sent, its debit is still to come
    | Finished // the loop is over

  datatype Sender = Sender(phase: Phase, next: nat, credits: int)

  datatype Status = Unknown | Open | Closed

  datatype Receiver = Receiver(status: Status, ledger: Ledger, done: bool)

  /** `missed` records that a chunk was accepted while no offer was known. */
  datatype State = State(sender: Sender, receiver: Receiver, forth: Link, back: Link, missed: bool)

  /** The lengths of the chunks of one file. */
  datatype Config = Config(lengths: seq<nat>, size: nat)

  predicate Sound(c: Config) {
    forall i :: 0 <= i < |c.lengths| ==> 0 < c.lengths[i] <= CHUNK_SIZE
  }

  function Initial(c: Config): State {
    State(Sender(Checking, 0, INITIAL_CREDIT),
          Receiver(Unknown, Ledger(seq(|c.lengths|, _ => false), 0, 0), false),
          Link([], {}), Link([], {}), false)
  }

  datatype Event =
    | Check                                  // waitForCredit finds enough credit
    | SendFirst                              // the next chunk leaves for the first time
    | Debit                                  // its length is taken off the credit
    | Finish                                 // the loop ends, or gives up waiting
    | Resend(index: nat)                     // a repair request is answered
    | Emit(packet: Packet)                   // an offer before the loop, DONE again after it, or anything else
    | Arrives(k: nat, timely: bool)          // packet k of the sender reaches the receiver
    | Granted(k: nat)                        // packet k of the receiver reaches the sender
    | Prompt                                 // IMMEDIATE_ACK: grant what is pending
    | EmitBack                               // any other packet of the receiver
    | Finalize

  function Log(l: Link, p: Packet): Link {
    l.(log := l.log + [p])
  }

  /** Flow packets are sent only for positive grants. */
  function LogGrant(l: Link, grant: nat): Link {
    if grant > 0 then Log(l, Flow(grant)) else l
  }

  /** The receiver handles an accepted packet; the grant to send comes with it. */
  function OnPacket(c: Config, r: Receiver, p: Packet, timely: bool): (o: (Receiver, nat))
    requires |r.ledger.received| == |c.lengths|
  {
    match p
    case Offer => (if r.status.Unknown? then r.(status := Open) else r, 0)
    case Done => (if r.status.Open? then r.(done := true) else r, 0)
    case Chunk(i) =>
      if r.status.Open? && i < |c.lengths| then
        var (ledger, grant) := Account(r.ledger, c.size, i, c.lengths[i], timely);
        (r.(ledger := ledger), grant)
      else (r, 0)
    case _ => (r, 0)
  }

  predicate Emits(c: Config, s: Sender, p: Packet) {
    match p
    case Offer => s.phase.Checking? && s.next == 0
    case Done => s.phase.Finished? && s.next >= |c.lengths|
    case Other => true
    case _ => false
  }

  ghost function Next(c: Config, s: State, e: Event): Option<State>
    requires |s.receiver.ledger.received| == |c.lengths|
  {
    match e
    case Check => OnCheck(c, s)
    case SendFirst => OnSendFirst(c, s)
    case Debit => OnDebit(c, s)
    case Finish => OnFinish(c, s)
    case Resend(i) => if i < |c.lengths| then Some(s.(forth := Log(s.forth, Chunk(i)))) else None
    case Emit(p) => if Emits(c, s.sender, p) then Some(s.(forth := Log(s.forth, p))) else None
    case Arrives(k, timely) => OnArrives(c, s, k, timely)
    case Granted(k) => OnGranted(s, k)
    case Prompt => OnPrompt(s)
    case EmitBack => Some(s.(back := Log(s.back, Other)))
    case Finalize => OnFinalize(s)
  }

  function OnCheck(c: Config, s: State): Option<State> {
    if s.sender.phase.Checking? && s.sender.next < |c.lengths| && s.sender.credits >= CHUNK_SIZE
    then Some(s.(sender := s.sender.(phase := Cleared))) else None
  }

  function OnSendFirst(c: Config, s: State): Option<State> {
    if s.sender.phase.Cleared? && s.sender.next < |c.lengths|
    then Some(s.(sender := s.sender.(phase := Unpaid), forth := Log(s.forth, Chunk(s.sender.next)))) else None
  }

  function OnDebit(c: Config, s: State): Option<State> {
    if s.sender.phase.Unpaid? && s.sender.next < |c.lengths|
    then Some(s.(sender := Sender(Checking, s.sender.next + 1, s.sender.credits - c.lengths[s.sender.next]))) else None
  }

  function OnFinish(c: Config, s: State): Option<State> {
    if !s.sender.phase.Checking? then None
    else
      var t := s.(sender := s.sender.(phase := Finished));
      Some(if s.sender.next >= |c.lengths| then t.(forth := Log(s.forth, Done)) else t)
  }

  ghost function OnArrives(c: Config, s: State, k: nat, timely: bool): Option<State>
    requires |s.receiver.ledger.received| == |c.lengths|
  {
    if k >= |s.forth.log| then None
    else if !ReplayWindow.Accepts(s.forth.accepted, k + 1) then Some(s)
    else
      var p := s.forth.log[k];
      var (r, grant) := OnPacket(c, s.receiver, p, timely);
      Some(s.(receiver := r, back := LogGrant(s.back, grant),
              forth := s.forth.(accepted := s.forth.accepted + {k + 1}),
              missed := s.missed || (p.Chunk? && s.receiver.status.Unknown?)))
  }

  ghost function OnGranted(s: State, k: nat): Option<State> {
    if k >= |s.back.log| then None
    else if !ReplayWindow.Accepts(s.back.accepted, k + 1) then Some(s)
    else
      var credits := s.sender.credits + (if s.back.log[k].Flow? then s.back.log[k].grant else 0);
      Some(s.(sender := s.sender.(credits := credits), back := s.back.(accepted := s.back.accepted + {k + 1})))
  }

  function OnPrompt(s: State): Option<State> {
    if !s.receiver.status.Open? then None
    else
      var l := s.receiver.ledger;
      Some(s.(receiver := s.receiver.(ledger := l.(flowPending := 0)), back := LogGrant(s.back, l.flowPending)))
  }

  function OnFinalize(s: State): Option<State> {
    var r := s.receiver;
    if r.status.Open? && r.done && forall i :: 0 <= i < |r.ledger.received| ==> r.ledger.received[i]
    then Some(s.(receiver := r.(status := Closed))) else None
  }

  // Quantities.

  /** Bytes of chunks already debited. */
  function Debited(c: Config, s: State): nat
    requires s.sender.next <= |c.lengths|
  {
    Sum(c.lengths[..s.sender.next])
  }

  /** Bytes of chunks sent for the first time, debited or not. */
  function FirstSent(c: Config, s: State): nat
    requires s.sender.next <= |c.lengths| && (s.sender.phase.Unpaid? ==> s.sender.next < |c.lengths|)
  {
    Debited(c, s) + if s.sender.phase.Unpaid? then c.lengths[s.sender.next] else 0
  }

  /** Grants that have been sent and not been accepted: in flight or lost. */
  ghost function Grants(l: Link): (g: seq<nat>)
    ensures |g| == |l.log|
  {
    seq(|l.log|, i requires 0 <= i < |l.log| => if l.log[i].Flow? && i + 1 !in l.accepted then l.log[i].grant else 0)
  }

  ghost function Outstanding(l: Link): nat {
    Sum(Grants(l))
  }

  function Picked(lengths: seq<nat>, received: seq<bool>): (p: seq<nat>)
    requires |received| == |lengths|
    ensures |p| == |lengths|
  {
    seq(|lengths|, i requires 0 <= i < |lengths| => if received[i] then lengths[i] else 0)
  }

  ghost predicate Inv(c: Config, s: State) {
    && Sound(c)
    && s.sender.next <= |c.lengths| && |s.receiver.ledger.received| == |c.lengths|
    && (s.sender.phase.Cleared? || s.sender.phase.Unpaid? ==> s.sender.next < |c.lengths| && s.sender.credits >= CHUNK_SIZE)
    && s.sender.credits >= 0
    && Balanced(c, s)
    && s.receiver.ledger.receivedBytes == Sum(Picked(c.lengths, s.receiver.ledger.received))
    && s.receiver.ledger.flowPending < FLOW_STEP
    && (forall k :: k in s.back.accepted ==> 0 < k <= |s.back.log|)
    && (forall k :: k in s.forth.accepted ==> 0 < k <= |s.forth.log|)
  }

  /** The conservation law of credit. */
  ghost predicate Balanced(c: Config, s: State)
    requires s.sender.next <= |c.lengths|
  {
    INITIAL_CREDIT + s.receiver.ledger.receivedBytes
    == s.sender.credits + Debited(c, s) + s.receiver.ledger.flowPending + Outstanding(s.back)
  }

  lemma LogKeeps(l: Link, p: Packet)
    requires forall k :: k in l.accepted ==> 0 < k <= |l.log|
    ensures Outstanding(Log(l, p)) == Outstanding(l) + (if p.Flow? then p.grant else 0)
  {
    var g := if p.Flow? then p.grant else 0;
    assert Grants(Log(l, p)) == Grants(l) + [g];
    SumSnoc(Grants(l), g);
  }

  lemma LogGrantKeeps(l: Link, grant: nat)
    requires forall k :: k in l.accepted ==> 0 < k <= |l.log|
    ensures Outstanding(LogGrant(l, grant)) == Outstanding(l) + grant
  {
    if grant > 0 { LogKeeps(l, Flow(grant)); }
  }

  lemma AcceptKeeps(l: Link, k: nat)
    requires k < |l.log| && k + 1 !in l.accepted
    ensures Outstanding(l.(accepted := l.accepted + {k + 1})) == Outstanding(l) - (if l.log[k].Flow? then l.log[k].grant else 0)
  {
    assert Grants(l.(accepted := l.accepted + {k + 1})) == Grants(l)[k := 0];
    SumUpdate(Grants(l), k, 0);
  }

  lemma PickMore(lengths: seq<nat>, received: seq<bool>, i: nat)
    requires |received| == |lengths| && i < |lengths| && !received[i]
    ensures Sum(Picked(lengths, received[i := true])) == Sum(Picked(lengths, received)) + lengths[i]
  {
    assert Picked(lengths, received[i := true]) == Picked(lengths, received)[i := lengths[i]];
    SumUpdate(Picked(lengths, received), i, lengths[i]);
  }

  lemma DebitKeeps(c: Config, s: State)
    requires Inv(c, s) && OnDebit(c, s).Some?
    ensures Inv(c, OnDebit(c, s).value)
  {
    hide Outstanding, Picked, Sum;
    var i := s.sender.next;
    assert c.lengths[..i + 1] == c.lengths[..i] + [c.lengths[i]];
    SumSnoc(c.lengths[..i], c.lengths[i]);
  }

  lemma ArrivesKeeps(c: Config, s: State, k: nat, timely: bool)
    requires Inv(c, s) && OnArrives(c, s, k, timely).Some?
    ensures Inv(c, OnArrives(c, s, k, timely).value)
  {
    hide Outstanding, Picked, Sum, LogGrant, Account;
    if ReplayWindow.Accepts(s.forth.accepted, k + 1) {
      var p := s.forth.log[k];
      var (r, grant) := OnPacket(c, s.receiver, p, timely);
      LogGrantKeeps(s.back, grant);
      LogGrantGrows(s.back, grant);
      if p.Chunk? && s.receiver.status.Open? && p.index < |c.lengths| { AccountKeeps(c, s.receiver.ledger, p.index, timely); }
    }
  }

  lemma AccountKeeps(c: Config, l: Ledger, i: nat, timely: bool)
    requires |l.received| == |c.lengths| && i < |c.lengths|
    requires l.receivedBytes == Sum(Picked(c.lengths, l.received))
    ensures var l' := Account(l, c.size, i, c.lengths[i], timely).0;
      l'.receivedBytes == Sum(Picked(c.lengths, l'.received))
  {
    hide Picked, Sum;
    if !l.received[i] { PickMore(c.lengths, l.received, i); }
  }

  lemma LogGrantGrows(l: Link, grant: nat)
    ensures LogGrant(l, grant).accepted == l.accepted && |LogGrant(l, grant).log| >= |l.log|
  {
  }

  lemma GrantedKeeps(c: Config, s: State, k: nat)
    requires Inv(c, s) && OnGranted(s, k).Some?
    ensures Inv(c, OnGranted(s, k).value)
  {
    hide Outstanding, Picked, Sum;
    if ReplayWindow.Accepts(s.back.accepted, k + 1) { AcceptKeeps(s.back, k); }
  }

  lemma StepKeeps(c: Config, s: State, e: Event)
    requires Inv(c, s) && Next(c, s, e).Some?
    ensures Inv(c, Next(c, s, e).value)
  {
    hide Outstanding, Picked, Sum, OnArrives, OnGranted, OnDebit, LogGrant;
    match e
    case Debit => DebitKeeps(c, s);
    case Arrives(k, timely) => ArrivesKeeps(c, s, k, timely);
    case Granted(k) => GrantedKeeps(c, s, k);
    case Prompt => LogGrantKeeps(s.back, s.receiver.ledger.flowPending); LogGrantGrows(s.back, s.receiver.ledger.flowPending);
    case EmitBack => LogKeeps(s.back, Other);
    case _ =>
  }

  ghost predicate Run(c: Config, s: State, events: seq<Event>, s': State)
    requires Inv(c, s)
    decreases |events|
  {
    if events == [] then s' == s
    else
      Next(c, s, events[0]).Some?
      && (StepKeeps(c, s, events[0]);
          Run(c, Next(c, s, events[0]).value, events[1..], s'))
  }

  lemma {:induction false} RunKeeps(c: Config, s: State, events: seq<Event>, s': State)
    requires Inv(c, s) && Run(c, s, events, s')
    ensures Inv(c, s')
    decreases |events|
  {
    hide Next, Inv;
    if events != [] {
      assert |s.receiver.ledger.received| == |c.lengths| by { InvLength(c, s); }
      StepKeeps(c, s, events[0]);
      RunKeeps(c, Next(c, s, events[0]).value, events[1..], s');
    }
  }

  lemma InvLength(c: Config, s: State)
    requires Inv(c, s)
    ensures |s.receiver.ledger.received| == |c.lengths|
  {
  }

  lemma InitialInv(c: Config)
    requires Sound(c)
    ensures Inv(c, Initial(c))
  {
    NothingPicked(c.lengths);
  }

  /** A run from the beginning of a transfer. */
  ghost predicate Reaches(c: Config, events: seq<Event>, s: State)
    requires Sound(c)
  {
    InitialInv(c);
    Run(c, Initial(c), events, s)
  }

  lemma {:induction false} NothingPicked(lengths: seq<nat>)
    ensures Sum(Picked(lengths, seq(|lengths|, _ => false))) == 0
  {
    if lengths != [] {
      NothingPicked(lengths[1..]);
      assert Picked(lengths, seq(|lengths|, _ => false))[1..] == Picked(lengths[1..], seq(|lengths[1..]|, _ => false));
    }
  }

  /**
   In every run over a lossy, reordering, duplicating network: credit is conserved (what was granted
   at first is the sender's credit, plus bytes debited and not yet received, plus bytes received and
   not yet granted, plus grants in flight or lost), credit is never negative, the bytes sent for the
   first time exceed the distinct bytes received by at most 4 MiB, and the sender may go on exactly
   when the unreceived and ungranted bytes leave room for a chunk.
   */
  lemma CreditConserved(c: Config, events: seq<Event>, s: State)
    requires Sound(c) && Reaches(c, events, s)
    ensures s.sender.next <= |c.lengths| && (s.sender.phase.Unpaid? ==> s.sender.next < |c.lengths|)
    ensures INITIAL_CREDIT == s.sender.credits + (Debited(c, s) - s.receiver.ledger.receivedBytes)
      + s.receiver.ledger.flowPending + Outstanding(s.back)
    ensures s.sender.credits >= 0 && s.receiver.ledger.flowPending < FLOW_STEP
    ensures FirstSent(c, s) - s.receiver.ledger.receivedBytes <= INITIAL_CREDIT
    ensures s.sender.phase.Checking? && s.sender.next < |c.lengths| ==>
      (OnCheck(c, s).Some? <==>
        (Debited(c, s) - s.receiver.ledger.receivedBytes) + s.receiver.ledger.flowPending + Outstanding(s.back)
        <= INITIAL_CREDIT - CHUNK_SIZE)
  {
    hide Run, Outstanding, Debited;
    InitialInv(c);
    RunKeeps(c, Initial(c), events, s);
    InvFacts(c, s);
  }

  lemma InvFacts(c: Config, s: State)
    requires Inv(c, s)
    ensures s.sender.next <= |c.lengths| && Balanced(c, s) && s.sender.credits >= 0
    ensures s.sender.phase.Unpaid? ==> s.sender.next < |c.lengths| && s.sender.credits >= c.lengths[s.sender.next]
  {
  }

  // Without loss the sender never waits for long.

  /** Chunks sent so far are in the log, and every accepted one has been received. */
  ghost predicate Traced(c: Config, s: State)
    requires |s.receiver.ledger.received| == |c.lengths|
  {
    && s.sender.next <= |c.lengths|
    && (forall i: nat :: i < s.sender.next ==> Logged(s.forth, i))
    && (s.sender.phase.Unpaid? ==> Logged(s.forth, s.sender.next))
    && (!s.missed ==> forall k: nat :: k < |s.forth.log| && k + 1 in s.forth.accepted ==> Taken(c, s.receiver, s.forth.log[k]))
    && (s.receiver.status.Closed? ==> forall i :: 0 <= i < |c.lengths| ==> s.receiver.ledger.received[i])
  }

  ghost predicate Logged(l: Link, i: nat) {
    exists k :: 0 <= k < |l.log| && l.log[k] == Chunk(i)
  }

  predicate Taken(c: Config, r: Receiver, p: Packet)
    requires |r.ledger.received| == |c.lengths|
  {
    p.Chunk? && p.index < |c.lengths| ==> r.ledger.received[p.index]
  }

  lemma LogTraces(l: Link, p: Packet)
    ensures forall i: nat :: Logged(l, i) ==> Logged(Log(l, p), i)
    ensures p.Chunk? ==> Logged(Log(l, p), p.index)
  {
    var l' := Log(l, p);
    forall i: nat | Logged(l, i) ensures Logged(l', i) {
      var k :| 0 <= k < |l.log| && l.log[k] == Chunk(i);
      assert l'.log[k] == Chunk(i);
    }
    if p.Chunk? { assert l'.log[|l.log|] == Chunk(p.index); }
  }

  lemma SendTraces(c: Config, s: State, p: Packet)
    requires Inv(c, s) && Traced(c, s)
    ensures Traced(c, s.(forth := Log(s.forth, p)))
  {
    hide Balanced, Sum, Picked, Logged;
    LogTraces(s.forth, p);
    assert forall k: nat :: k < |s.forth.log| ==> Log(s.forth, p).log[k] == s.forth.log[k];
  }

  lemma ArrivesTraces(c: Config, s: State, k: nat, timely: bool)
    requires Inv(c, s) && Traced(c, s) && OnArrives(c, s, k, timely).Some?
    ensures Traced(c, OnArrives(c, s, k, timely).value)
  {
    hide Balanced, Sum, Picked, Logged, LogGrant;
    var s' := OnArrives(c, s, k, timely).value;
    if ReplayWindow.Accepts(s.forth.accepted, k + 1) {
      assert forall i: nat :: Logged(s'.forth, i) <==> Logged(s.forth, i) by { SameLog(s.forth, s'.forth); }
      assert !s'.missed ==> Taken(c, s'.receiver, s.forth.log[k]);
    }
  }

  lemma SameLog(l: Link, l': Link)
    requires l.log == l'.log
    ensures forall i: nat :: Logged(l, i) <==> Logged(l', i)
  {
  }

  lemma StepTraces(c: Config, s: State, e: Event)
    requires Inv(c, s) && Traced(c, s) && Next(c, s, e).Some?
    ensures Traced(c, Next(c, s, e).value)
  {
    hide Balanced, Sum, Picked, Logged, LogGrant, OnArrives;
    match e
    case SendFirst => LogTraces(s.forth, Chunk(s.sender.next)); SendTraces(c, s, Chunk(s.sender.next));
    case Resend(i) => SendTraces(c, s, Chunk(i));
    case Emit(p) => SendTraces(c, s, p);
    case Finish => SendTraces(c, s, Done);
    case Arrives(k, timely) => ArrivesTraces(c, s, k, timely);
    case _ =>
  }

  lemma {:induction false} RunTraces(c: Config, s: State, events: seq<Event>, s': State)
    requires Inv(c, s) && InvTraced(c, s) && Run(c, s, events, s')
    ensures Inv(c, s') && InvTraced(c, s')
    decreases |events|
  {
    hide Next, Inv, Traced;
    InvLength(c, s);
    if events != [] {
      StepKeeps(c, s, events[0]);
      StepTraces(c, s, events[0]);
      RunTraces(c, Next(c, s, events[0]).value, events[1..], s');
    }
  }

  ghost predicate InvTraced(c: Config, s: State)
    requires Inv(c, s)
  {
    InvLength(c, s);
    Traced(c, s)
  }

  // What is sent when, and what the receiver makes of it.

  /** Only chunks of the file are sent, offers before DONE, and DONE only after the last chunk. */
  predicate Sent(c: Config, s: Sender, p: Packet) {
    && (p.Chunk? ==> p.index < |c.lengths|)
    && (p.Done? ==> s.phase.Finished? && s.next >= |c.lengths|)
    && !p.Flow?
  }

  ghost predicate Has(l: Link, p: Packet) {
    exists k :: 0 <= k < |l.log| && l.log[k] == p
  }

  /** The receiver knows only what was sent. */
  ghost predicate Ordered(c: Config, s: State)
    requires |s.receiver.ledger.received| == |c.lengths|
  {
    && (forall k :: 0 <= k < |s.forth.log| ==> Sent(c, s.sender, s.forth.log[k]))
    && (!s.receiver.status.Unknown? ==> Has(s.forth, Offer))
    && (s.receiver.done ==> Has(s.forth, Done) && !s.receiver.status.Unknown?)
    && (forall i: nat :: i < |c.lengths| && s.receiver.ledger.received[i] ==> Has(s.forth, Chunk(i)) && !s.receiver.status.Unknown?)
    && (s.receiver.status.Closed? ==> s.receiver.done && forall i :: 0 <= i < |c.lengths| ==> s.receiver.ledger.received[i])
  }

  lemma HasMore(l: Link, p: Packet, q: Packet)
    ensures Has(Log(l, p), q) <==> Has(l, q) || p == q
  {
    var l' := Log(l, p);
    if k :| 0 <= k < |l.log| && l.log[k] == q { assert l'.log[k] == q; }
    if p == q { assert l'.log[|l.log|] == q; }
  }

  lemma LogOrders(c: Config, s: State, p: Packet)
    requires |s.receiver.ledger.received| == |c.lengths| && Ordered(c, s) && Sent(c, s.sender, p)
    ensures Ordered(c, s.(forth := Log(s.forth, p)))
  {
    hide Has, Sent;
    HasMore(s.forth, p, Offer);
    HasMore(s.forth, p, Done);
    forall i: nat ensures Has(s.forth, Chunk(i)) ==> Has(Log(s.forth, p), Chunk(i)) { HasMore(s.forth, p, Chunk(i)); }
  }

  /** Another phase of the sender, as long as DONE has not been sent or stays allowed. */
  lemma SenderOrders(c: Config, s: State, t: Sender)
    requires |s.receiver.ledger.received| == |c.lengths| && Ordered(c, s)
    requires !s.sender.phase.Finished? || t == s.sender.(credits := t.credits)
    ensures Ordered(c, s.(sender := t))
  {
    hide Has;
  }

  lemma ArrivesOrders(c: Config, s: State, k: nat, timely: bool)
    requires |s.receiver.ledger.received| == |c.lengths| && Ordered(c, s) && OnArrives(c, s, k, timely).Some?
    ensures var s' := OnArrives(c, s, k, timely).value; |s'.receiver.ledger.received| == |c.lengths| && Ordered(c, s')
  {
    hide Has, Sent, LogGrant;
    if ReplayWindow.Accepts(s.forth.accepted, k + 1) {
      var s', p := OnArrives(c, s, k, timely).value, s.forth.log[k];
      HasThis(s.forth, k);
      forall q ensures Has(s'.forth, q) <==> Has(s.forth, q) { SameHas(s.forth, s'.forth, q); }
    }
  }

  lemma HasThis(l: Link, k: nat)
    requires k < |l.log|
    ensures Has(l, l.log[k])
  {
  }

  lemma SameHas(l: Link, l': Link, q: Packet)
    requires l'.log == l.log
    ensures Has(l', q) <==> Has(l, q)
  {
  }

  lemma StepOrders(c: Config, s: State, e: Event)
    requires Inv(c, s) && |s.receiver.ledger.received| == |c.lengths| && Ordered(c, s) && Next(c, s, e).Some?
    ensures var s' := Next(c, s, e).value; |s'.receiver.ledger.received| == |c.lengths| && Ordered(c, s')
  {
    hide Has, Balanced, Sum, Picked, LogGrant, OnArrives, Ordered;
    var s' := Next(c, s, e).value;
    match e
    case Check => SenderOrders(c, s, s'.sender);
    case SendFirst =>
      SenderOrders(c, s, s'.sender);
      LogOrders(c, s.(sender := s'.sender), Chunk(s.sender.next));
    case Debit => SenderOrders(c, s, s'.sender);
    case Finish =>
      SenderOrders(c, s, s'.sender);
      if s.sender.next >= |c.lengths| { LogOrders(c, s.(sender := s'.sender), Done); }
    case Resend(i) => LogOrders(c, s, Chunk(i));
    case Emit(p) => LogOrders(c, s, p);
    case Arrives(k, timely) => ArrivesOrders(c, s, k, timely);
    case Granted(k) => GrantedOrders(c, s, k);
    case _ => BackOrders(c, s, e);
  }

  lemma GrantedOrders(c: Config, s: State, k: nat)
    requires |s.receiver.ledger.received| == |c.lengths| && Ordered(c, s) && OnGranted(s, k).Some?
    ensures Ordered(c, OnGranted(s, k).value)
  {
    hide Has;
  }

  lemma BackOrders(c: Config, s: State, e: Event)
    requires |s.receiver.ledger.received| == |c.lengths| && Ordered(c, s) && Next(c, s, e).Some?
    requires e.Prompt? || e.EmitBack? || e.Finalize?
    ensures var s' := Next(c, s, e).value; |s'.receiver.ledger.received| == |c.lengths| && Ordered(c, s')
  {
    hide Has, Sent, LogGrant;
  }

  lemma {:induction false} RunOrders(c: Config, s: State, events: seq<Event>, s': State)
    requires Inv(c, s) && Run(c, s, events, s') && |s.receiver.ledger.received| == |c.lengths| && Ordered(c, s)
    ensures |s'.receiver.ledger.received| == |c.lengths| && Ordered(c, s')
    decreases |events|
  {
    hide Next, Inv, Ordered;
    if events != [] {
      StepKeeps(c, s, events[0]);
      StepOrders(c, s, events[0]);
      RunOrders(c, Next(c, s, events[0]).value, events[1..], s');
    }
  }

  /**
   In every run over every network: only chunks of the file are ever sent, DONE goes out only after every
   chunk has been sent, and the receiver knows an offer, a chunk or DONE only if it was sent. A file is
   closed only with every chunk received, after DONE.
   */
  lemma SentInOrder(c: Config, events: seq<Event>, s: State)
    requires Sound(c) && Reaches(c, events, s)
    ensures |s.receiver.ledger.received| == |c.lengths|
    ensures forall i: nat :: Has(s.forth, Chunk(i)) ==> i < |c.lengths|
    ensures Has(s.forth, Done) ==> s.sender.phase.Finished? && forall i: nat :: i < |c.lengths| ==> Has(s.forth, Chunk(i))
    ensures forall i: nat :: i < |c.lengths| && s.receiver.ledger.received[i] ==> Has(s.forth, Chunk(i)) && Has(s.forth, Offer)
    ensures s.receiver.done ==> Has(s.forth, Done)
    ensures s.receiver.status.Closed? ==> s.receiver.done && forall i :: 0 <= i < |c.lengths| ==> s.receiver.ledger.received[i]
  {
    hide Run, Next;
    InitialInv(c);
    RunTraces(c, Initial(c), events, s);
    RunOrders(c, Initial(c), events, s);
    forall i: nat ensures Has(s.forth, Chunk(i)) <==> Logged(s.forth, i) { HasLogged(s.forth, i); }
  }

  lemma HasLogged(l: Link, i: nat)
    ensures Has(l, Chunk(i)) <==> Logged(l, i)
  {
  }

  /** A packet that arrives again changes nothing, in either direction and at any time. */
  lemma DuplicateHarmless(c: Config, s: State, k: nat, timely: bool, again: bool)
    requires |s.receiver.ledger.received| == |c.lengths|
    ensures OnArrives(c, s, k, timely).Some? ==>
      var s' := OnArrives(c, s, k, timely).value;
      |s'.receiver.ledger.received| == |c.lengths| && OnArrives(c, s', k, again) == Some(s')
    ensures OnGranted(s, k).Some? ==> OnGranted(OnGranted(s, k).value, k) == OnGranted(s, k)
  {
    hide LogGrant;
  }

  /** An immediate acknowledgement is answered exactly for an open file: what is pending becomes a grant. */
  lemma PromptExactly(c: Config, s: State)
    requires Inv(c, s)
    ensures OnPrompt(s).Some? <==> s.receiver.status.Open?
    ensures OnPrompt(s).Some? ==> var s' := OnPrompt(s).value;
      && s'.receiver.ledger.flowPending == 0
      && Outstanding(s'.back) == Outstanding(s.back) + s.receiver.ledger.flowPending
      && s' == s.(receiver := s'.receiver, back := s'.back) && s'.receiver.ledger.received == s.receiver.ledger.received
  {
    hide Outstanding, Balanced, Picked, Sum, LogGrant;
    LogGrantKeeps(s.back, s.receiver.ledger.flowPending);
  }

  // Without loss the transfer goes through.

  /** Nothing was lost and nothing is in flight: every packet sent so far has been accepted and used. */
  ghost predicate Quiet(s: State) {
    && !s.missed
    && (forall n :: 0 < n <= |s.forth.log| ==> n in s.forth.accepted)
    && (forall n :: 0 < n <= |s.back.log| ==> n in s.back.accepted)
  }

  lemma {:induction false} ZeroSum(xs: seq<nat>)
    requires forall i :: 0 <= i < |xs| ==> xs[i] == 0
    ensures Sum(xs) == 0
  {
    if xs != [] { ZeroSum(xs[1..]); }
  }

  lemma {:induction false} SumPrefix(xs: seq<nat>, ys: seq<nat>, k: nat)
    requires |xs| == |ys| && k <= |xs|
    requires forall i :: 0 <= i < k ==> ys[i] == xs[i]
    ensures Sum(xs[..k]) <= Sum(ys)
  {
    assert ys == ys[..k] + ys[k..] && ys[..k] == xs[..k];
    SumSplit(ys[..k], ys[k..]);
  }

  lemma QuietCredit(c: Config, s: State)
    requires Inv(c, s) && InvTraced(c, s) && Quiet(s) && s.sender.phase.Checking?
    ensures 2 * s.sender.credits > 7 * 1024 * 1024
    ensures s.sender.next < |c.lengths| ==> OnCheck(c, s).Some?
  {
    ZeroSum(Grants(s.back));
    forall i | 0 <= i < s.sender.next ensures s.receiver.ledger.received[i] {
      assert Logged(s.forth, i);
      var k :| 0 <= k < |s.forth.log| && s.forth.log[k] == Chunk(i);
      assert k + 1 in s.forth.accepted;
      assert Taken(c, s.receiver, s.forth.log[k]);
    }
    SumPrefix(c.lengths, Picked(c.lengths, s.receiver.ledger.received), s.sender.next);
  }

  /**
   With no loss, whenever nothing is in flight the sender has more than 3.5 MiB of credit, so it
   can send its next chunk.
   */
  lemma NeverWaitsQuietly(c: Config, events: seq<Event>, s: State)
    requires Sound(c) && Reaches(c, events, s)
    requires Quiet(s) && s.sender.phase.Checking?
    ensures 2 * s.sender.credits > 7 * 1024 * 1024
    ensures s.sender.next < |c.lengths| ==> OnCheck(c, s).Some?
  {
    hide Run, Next;
    InitialInv(c);
    RunTraces(c, Initial(c), events, s);
    QuietCredit(c, s);
  }

  /** Between two chunks of a transfer without loss: n packets were sent and the first i chunks are in. */
  ghost predicate Calm(c: Config, s: State, i: nat) {
    && Inv(c, s) && InvTraced(c, s) && Quiet(s)
    && s.sender.phase.Checking? && s.sender.next == i && s.receiver.status.Open? && !s.receiver.done
    && |s.forth.log| == i + 1 && |s.back.log| <= i
    && forall j :: 0 <= j < i ==> s.receiver.ledger.received[j]
  }

  lemma RunOne(c: Config, s: State, e: Event, s': State)
    requires Inv(c, s) && InvTraced(c, s) && Follows(c, s, e, s')
    ensures Run(c, s, [e], s') && Inv(c, s') && InvTraced(c, s')
  {
    hide Next, Inv, Traced;
    InvLength(c, s);
    StepKeeps(c, s, e);
    StepTraces(c, s, e);
    assert [e][1..] == [];
    assert Run(c, s', [], s');
  }

  ghost predicate Follows(c: Config, s: State, e: Event, s': State)
    requires Inv(c, s)
  {
    InvLength(c, s);
    Next(c, s, e) == Some(s')
  }

  /** Joining a run and one more event. */
  lemma RunOn(c: Config, s: State, events: seq<Event>, mid: State, e: Event, end: State)
    requires Inv(c, s) && InvTraced(c, s) && Run(c, s, events, mid) && Inv(c, mid) && Follows(c, mid, e, end)
    ensures Run(c, s, events + [e], end) && Inv(c, end) && InvTraced(c, end)
  {
    hide Next, Inv, Traced, InvTraced, Follows, Run;
    RunTraces(c, s, events, mid);
    RunOne(c, mid, e, end);
    RunSplit(c, s, events, [e], mid, end);
  }

  /** A packet that is sent when all before it were accepted is fresh. */
  lemma NextIsFresh(l: Link, p: Packet)
    requires forall k :: k in l.accepted ==> 0 < k <= |l.log|
    requires |l.log| < Packets.U64_MAX
    ensures ReplayWindow.Accepts(Log(l, p).accepted, |l.log| + 1)
  {
  }

  /** Without loss the next chunk is sent, received, and granted back when a grant is due. */
  lemma OneChunk(c: Config, s: State, i: nat) returns (events: seq<Event>, end: State)
    requires Calm(c, s, i) && i < |c.lengths| && i + 2 < Packets.U64_MAX
    ensures Run(c, s, events, end) && Calm(c, end, i + 1)
  {
    hide Run, Inv, Traced, Quiet, Follows, Account;
    var s1, s2, s3, s4 := ChunkSteps(c, s, i);
    RunOne(c, s, Check, s1);
    RunOn(c, s, [Check], s1, SendFirst, s2);
    RunOn(c, s, [Check] + [SendFirst], s2, Debit, s3);
    var arrives := Arrives(|s.forth.log|, false);
    RunOn(c, s, [Check] + [SendFirst] + [Debit], s3, arrives, s4);
    events, end := [Check] + [SendFirst] + [Debit] + [arrives], s4;
    if |s4.back.log| > |s.back.log| {
      end := GrantStep(c, s, s4);
      RunOn(c, s, events, s4, Granted(|s.back.log|), end);
      events := events + [Granted(|s.back.log|)];
    }
    CalmAgain(c, s, s4, end, i);
  }

  ghost predicate ChunkDone(c: Config, s: State, s4: State, i: nat)
    requires |s.receiver.ledger.received| == |s4.receiver.ledger.received| == |c.lengths|
  {
    && s4.sender.phase.Checking? && s4.sender.next == i + 1
    && s4.receiver.status.Open? && !s4.receiver.done && !s4.missed
    && s4.forth.accepted == s.forth.accepted + {|s.forth.log| + 1} && |s4.forth.log| == |s.forth.log| + 1
    && s4.back.accepted == s.back.accepted && |s.back.log| <= |s4.back.log| <= |s.back.log| + 1
    && i < |c.lengths| && s4.receiver.ledger.received == s.receiver.ledger.received[i := true]
  }

  lemma ChunkSteps(c: Config, s: State, i: nat) returns (s1: State, s2: State, s3: State, s4: State)
    requires Calm(c, s, i) && i < |c.lengths| && i + 2 < Packets.U64_MAX
    ensures Follows(c, s, Check, s1)
    ensures Inv(c, s1) && Follows(c, s1, SendFirst, s2)
    ensures Inv(c, s2) && Follows(c, s2, Debit, s3)
    ensures Inv(c, s3) && Follows(c, s3, Arrives(|s.forth.log|, false), s4)
    ensures |s.receiver.ledger.received| == |s4.receiver.ledger.received| == |c.lengths| && ChunkDone(c, s, s4, i)
  {
    hide Balanced, Sum, Picked, Outstanding, Traced;
    QuietCredit(c, s);
    s1 := OnCheck(c, s).value;
    StepKeeps(c, s, Check);
    s2 := OnSendFirst(c, s1).value;
    StepKeeps(c, s1, SendFirst);
    s3 := OnDebit(c, s2).value;
    StepKeeps(c, s2, Debit);
    NextIsFresh(s.forth, Chunk(i));
    s4 := OnArrives(c, s3, |s.forth.log|, false).value;
  }

  lemma GrantStep(c: Config, s: State, s4: State) returns (end: State)
    requires Inv(c, s) && Inv(c, s4) && s4.back.accepted == s.back.accepted
    requires |s4.back.log| == |s.back.log| + 1 && |s.back.log| < Packets.U64_MAX
    ensures Follows(c, s4, Granted(|s.back.log|), end)
    ensures end.sender == s4.sender.(credits := end.sender.credits) && end.receiver == s4.receiver && end.forth == s4.forth
    ensures end.back == s4.back.(accepted := s.back.accepted + {|s.back.log| + 1}) && end.missed == s4.missed
  {
    hide Balanced, Sum, Picked, Outstanding;
    NextIsFresh(s.back, Other);
    end := OnGranted(s4, |s.back.log|).value;
  }

  lemma CalmAgain(c: Config, s: State, s4: State, end: State, i: nat)
    requires Calm(c, s, i) && Inv(c, end) && InvTraced(c, end)
    requires |s4.receiver.ledger.received| == |s.receiver.ledger.received| == |c.lengths| && ChunkDone(c, s, s4, i)
    requires end.sender == s4.sender.(credits := end.sender.credits) && end.receiver == s4.receiver && end.forth == s4.forth
    requires end.missed == s4.missed
    requires if |s4.back.log| == |s.back.log| then end.back == s4.back
             else end.back == s4.back.(accepted := s.back.accepted + {|s.back.log| + 1})
    ensures Calm(c, end, i + 1)
  {
    hide Inv, Traced, InvTraced;
  }

  /** All chunks from chunk i on. */
  lemma {:induction false} AllChunks(c: Config, s: State, i: nat) returns (events: seq<Event>, end: State)
    requires Calm(c, s, i) && i <= |c.lengths| && |c.lengths| + 2 < Packets.U64_MAX
    ensures Run(c, s, events, end) && Calm(c, end, |c.lengths|)
    decreases |c.lengths| - i
  {
    hide Run;
    CalmInv(c, s, i);
    hide Calm, Inv;
    if i == |c.lengths| {
      RunNothing(c, s);
      return [], s;
    }
    var mid;
    events, mid := OneChunk(c, s, i);
    CalmInv(c, mid, i + 1);
    var rest;
    rest, end := AllChunks(c, mid, i + 1);
    RunSplit(c, s, events, rest, mid, end);
    events := events + rest;
  }

  lemma RunNothing(c: Config, s: State)
    requires Inv(c, s)
    ensures Run(c, s, [], s)
  {
  }

  lemma CalmInv(c: Config, s: State, i: nat)
    requires Calm(c, s, i)
    ensures Inv(c, s) && InvTraced(c, s)
  {
  }

  /** The offer goes out and arrives. */
  lemma Opening(c: Config) returns (events: seq<Event>, s: State)
    requires Sound(c)
    ensures Reaches(c, events, s) && Calm(c, s, 0)
  {
    hide Balanced, Picked, Sum, Outstanding;
    InitialInv(c);
    var s0 := Initial(c);
    InitialTraced(c);
    var s1 := s0.(forth := Log(s0.forth, Offer));
    RunOne(c, s0, Emit(Offer), s1);
    NextIsFresh(s0.forth, Offer);
    s := OnArrives(c, s1, 0, false).value;
    RunOn(c, s0, [Emit(Offer)], s1, Arrives(0, false), s);
    events := [Emit(Offer)] + [Arrives(0, false)];
  }

  lemma InitialTraced(c: Config)
    requires Sound(c) && Inv(c, Initial(c))
    ensures InvTraced(c, Initial(c))
  {
  }

  /** DONE goes out and arrives, and the file is closed. */
  lemma Closing(c: Config, s: State) returns (events: seq<Event>, end: State)
    requires Calm(c, s, |c.lengths|) && |c.lengths| + 2 < Packets.U64_MAX
    ensures Run(c, s, events, end)
    ensures end.receiver.status.Closed? && end.sender.phase.Finished? && |end.receiver.ledger.received| == |c.lengths|
    ensures forall i :: 0 <= i < |c.lengths| ==> end.receiver.ledger.received[i]
  {
    hide Balanced, Picked, Sum, Outstanding, Run, Traced;
    var s1 := OnFinish(c, s).value;
    RunOne(c, s, Finish, s1);
    NextIsFresh(s.forth, Done);
    var s2 := OnArrives(c, s1, |s.forth.log|, false).value;
    var arrives := Arrives(|s.forth.log|, false);
    RunOn(c, s, [Finish], s1, arrives, s2);
    end := OnFinalize(s2).value;
    RunOn(c, s, [Finish] + [arrives], s2, Finalize, end);
    events := [Finish] + [arrives] + [Finalize];
  }

  /**
   Every transfer can go through without loss: from the start there is a run in which the sender never has to
   wait for credit and finishes, and the receiver closes the file with every chunk.
   */
  lemma Completes(c: Config) returns (events: seq<Event>, s: State)
    requires Sound(c) && |c.lengths| < 0x8000_0000
    ensures Reaches(c, events, s)
    ensures s.receiver.status.Closed? && s.sender.phase.Finished? && |s.receiver.ledger.received| == |c.lengths|
    ensures forall i :: 0 <= i < |c.lengths| ==> s.receiver.ledger.received[i]
  {
    hide Run, Calm;
    InitialInv(c);
    var opening, s0 := Opening(c);
    CalmInv(c, s0, 0);
    var chunks, s1 := AllChunks(c, s0, 0);
    CalmInv(c, s1, |c.lengths|);
    var closing;
    closing, s := Closing(c, s1);
    hide Inv;
    RunSplit(c, Initial(c), opening, chunks, s0, s1);
    RunSplit(c, Initial(c), opening + chunks, closing, s1, s);
    events := opening + chunks + closing;
  }

  // Once DONE is out, loss can be made good.

  /** DONE was sent, the receiver has an offer, and the first i chunks are there. */
  ghost predicate Repairing(c: Config, s: State, i: nat) {
    && Inv(c, s) && s.receiver.status.Open? && s.sender.phase.Finished? && s.sender.next >= |c.lengths|
    && i <= |c.lengths| && forall j :: 0 <= j < i ==> s.receiver.ledger.received[j]
  }

  /** The next packet that leaves is accepted when it arrives, whatever was lost before. */
  lemma SendAndArrive(c: Config, s: State, e: Event, p: Packet) returns (mid: State, end: State)
    requires Inv(c, s) && |s.forth.log| < Packets.U64_MAX
    requires Follows(c, s, e, s.(forth := Log(s.forth, p)))
    ensures mid == s.(forth := Log(s.forth, p)) && Inv(c, mid)
    ensures Follows(c, mid, Arrives(|s.forth.log|, false), end) && Inv(c, end)
    ensures |s.receiver.ledger.received| == |c.lengths| && end.sender == s.sender
    ensures end.receiver == OnPacket(c, s.receiver, p, false).0 && |end.forth.log| == |s.forth.log| + 1
  {
    hide Balanced, Picked, Sum, Outstanding, OnPacket;
    StepKeeps(c, s, e);
    mid := s.(forth := Log(s.forth, p));
    NextIsFresh(s.forth, p);
    end := OnArrives(c, mid, |s.forth.log|, false).value;
    StepKeeps(c, mid, Arrives(|s.forth.log|, false));
  }

  lemma TwoSteps(c: Config, s: State, e: Event, mid: State, f: Event, end: State)
    requires Inv(c, s) && Follows(c, s, e, mid) && Inv(c, mid) && Follows(c, mid, f, end)
    ensures Run(c, s, [e, f], end)
  {
    hide Inv, Next;
    InvLength(c, s);
    InvLength(c, mid);
    StepKeeps(c, s, e);
    StepKeeps(c, mid, f);
    assert [e, f][1..] == [f] && [f][1..] == [];
    assert Run(c, end, [], end);
    assert Run(c, mid, [f], end);
  }

  lemma ResendStep(c: Config, s: State, i: nat)
    requires Inv(c, s)
    ensures |s.receiver.ledger.received| == |c.lengths|
    ensures Next(c, s, Resend(i)) == if i < |c.lengths| then Some(s.(forth := Log(s.forth, Chunk(i)))) else None
  {
    hide Balanced, Picked, Sum;
  }

  lemma {:induction false} RepairFrom(c: Config, s: State, i: nat) returns (events: seq<Event>, end: State)
    requires Repairing(c, s, i) && |s.forth.log| + (|c.lengths| - i) + 2 < Packets.U64_MAX
    ensures Run(c, s, events, end) && end.receiver.status.Closed?
    decreases |c.lengths| - i
  {
    hide Run, Inv, Follows, Next;
    InvLength(c, s);
    if i == |c.lengths| {
      events, end := RepairEnds(c, s);
      return;
    }
    ResendStep(c, s, i);
    ResendFollows(c, s, i);
    var s1, s2 := SendAndArrive(c, s, Resend(i), Chunk(i));
    TwoSteps(c, s, Resend(i), s1, Arrives(|s.forth.log|, false), s2);
    var rest;
    rest, end := RepairFrom(c, s2, i + 1);
    RunSplit(c, s, [Resend(i), Arrives(|s.forth.log|, false)], rest, s2, end);
    events := [Resend(i), Arrives(|s.forth.log|, false)] + rest;
  }

  lemma ResendFollows(c: Config, s: State, i: nat)
    requires Inv(c, s) && i < |c.lengths|
    ensures Follows(c, s, Resend(i), s.(forth := Log(s.forth, Chunk(i))))
  {
    ResendStep(c, s, i);
  }

  lemma RepairEnds(c: Config, s: State) returns (events: seq<Event>, end: State)
    requires Repairing(c, s, |c.lengths|) && |s.forth.log| < Packets.U64_MAX
    ensures Run(c, s, events, end) && end.receiver.status.Closed?
  {
    hide Run, Inv, Follows;
    DoneFollows(c, s);
    var s1, s2 := SendAndArrive(c, s, Emit(Done), Done);
    TwoSteps(c, s, Emit(Done), s1, Arrives(|s.forth.log|, false), s2);
    end := FinalizeFollows(c, s2);
    InvNothing(c, s2, Finalize, end);
    RunSplit(c, s, [Emit(Done), Arrives(|s.forth.log|, false)], [Finalize], s2, end);
    events := [Emit(Done), Arrives(|s.forth.log|, false)] + [Finalize];
  }

  lemma DoneFollows(c: Config, s: State)
    requires Repairing(c, s, |c.lengths|)
    ensures Follows(c, s, Emit(Done), s.(forth := Log(s.forth, Done)))
  {
    hide Balanced, Picked, Sum;
  }

  lemma FinalizeFollows(c: Config, s: State) returns (end: State)
    requires Inv(c, s) && s.receiver.status.Open? && s.receiver.done
    requires |s.receiver.ledger.received| == |c.lengths| && forall j :: 0 <= j < |c.lengths| ==> s.receiver.ledger.received[j]
    ensures Follows(c, s, Finalize, end) && end.receiver.status.Closed?
  {
    hide Balanced, Picked, Sum;
    end := OnFinalize(s).value;
  }

  lemma InvNothing(c: Config, s: State, e: Event, end: State)
    requires Inv(c, s) && Follows(c, s, e, end)
    ensures Run(c, s, [e], end)
  {
    hide Inv, Next;
    InvLength(c, s);
    StepKeeps(c, s, e);
    assert [e][1..] == [];
    assert Run(c, end, [], end);
  }

  /**
   Whatever was lost, reordered or repeated on the way: once the sender has sent DONE and an offer has
   arrived, the transfer can still be completed by resends. From every such state of every run there is a
   run that closes the file.
   */
  lemma RepairCompletes(c: Config, before: seq<Event>, s: State) returns (events: seq<Event>, end: State)
    requires Sound(c) && Reaches(c, before, s) && Inv(c, s)
    requires Has(s.forth, Done) && s.receiver.status.Open?
    requires |s.forth.log| + |c.lengths| + 2 < Packets.U64_MAX
    ensures Run(c, s, events, end) && end.receiver.status.Closed?
    ensures |end.receiver.ledger.received| == |c.lengths| && forall i :: 0 <= i < |c.lengths| ==> end.receiver.ledger.received[i]
  {
    hide Run, Inv, Next, Has;
    InitialInv(c);
    InitialOrdered(c);
    InvLength(c, s);
    RunOrders(c, Initial(c), before, s) by { ReachesRun(c, before, s); }
    DoneIsLast(c, s);
    events, end := RepairFrom(c, s, 0);
    RunOrders(c, s, events, end);
  }

  lemma ReachesRun(c: Config, events: seq<Event>, s: State)
    requires Sound(c) && Reaches(c, events, s)
    ensures Inv(c, Initial(c)) && Run(c, Initial(c), events, s)
  {
    InitialInv(c);
  }

  lemma InitialOrdered(c: Config)
    ensures |Initial(c).receiver.ledger.received| == |c.lengths| && Ordered(c, Initial(c))
  {
  }

  lemma DoneIsLast(c: Config, s: State)
    requires |s.receiver.ledger.received| == |c.lengths| && Ordered(c, s) && Has(s.forth, Done)
    ensures s.sender.phase.Finished? && s.sender.next >= |c.lengths|
  {
  }

  // Without repair it can wait in vain.

  function Repeat(k: nat): seq<Event> {
    if k == 0 then [] else Repeat(k - 1) + [Check, SendFirst, Debit]
  }

  function Numbered(k: nat): seq<Packet> {
    seq(k, i requires 0 <= i < k => Chunk(i))
  }

  /** The state after k chunks of full length have been sent and nothing has arrived. */
  function Unheard(c: Config, k: nat): State {
    Initial(c).(sender := Sender(Checking, k, INITIAL_CREDIT - k * CHUNK_SIZE), forth := Link(Numbered(k), {}))
  }

  lemma OneMore(c: Config, k: nat)
    requires Sound(c) && k < |c.lengths| && c.lengths[k] == CHUNK_SIZE
    requires INITIAL_CREDIT - k * CHUNK_SIZE >= CHUNK_SIZE
    ensures var s := Unheard(c, k);
      && OnCheck(c, s).Some?
      && OnSendFirst(c, OnCheck(c, s).value).Some?
      && OnDebit(c, OnSendFirst(c, OnCheck(c, s).value).value) == Some(Unheard(c, k + 1))
  {
    assert Numbered(k) + [Chunk(k)] == Numbered(k + 1);
  }

  lemma {:induction false} RunSplit(c: Config, s: State, a: seq<Event>, b: seq<Event>, mid: State, end: State)
    requires Inv(c, s) && Run(c, s, a, mid) && Inv(c, mid) && Run(c, mid, b, end)
    ensures Run(c, s, a + b, end)
    decreases |a|
  {
    hide Inv, Next;
    if a == [] {
      assert a + b == b;
    } else {
      InvLength(c, s);
      StepKeeps(c, s, a[0]);
      assert (a + b)[0] == a[0] && (a + b)[1..] == a[1..] + b;
      RunSplit(c, Next(c, s, a[0]).value, a[1..], b, mid, end);
    }
  }

  lemma ThreeSteps(c: Config, s: State, s1: State, s2: State, s3: State)
    requires Inv(c, s) && OnCheck(c, s) == Some(s1) && OnSendFirst(c, s1) == Some(s2) && OnDebit(c, s2) == Some(s3)
    ensures Run(c, s, [Check, SendFirst, Debit], s3)
  {
    hide Inv, OnCheck, OnSendFirst, OnDebit;
    InvLength(c, s);
    StepKeeps(c, s, Check);
    InvLength(c, s1);
    StepKeeps(c, s1, SendFirst);
    InvLength(c, s2);
    StepKeeps(c, s2, Debit);
    var all := [Check, SendFirst, Debit];
    assert all[1..] == [SendFirst, Debit] && all[1..][1..] == [Debit] && all[1..][1..][1..] == [];
    assert Run(c, s2, [Debit], s3);
    assert Run(c, s1, [SendFirst, Debit], s3);
  }

  lemma {:induction false} UnheardRun(c: Config, k: nat)
    requires Sound(c) && k <= |c.lengths| && INITIAL_CREDIT - k * CHUNK_SIZE >= 0
    requires forall i :: 0 <= i < k ==> c.lengths[i] == CHUNK_SIZE
    ensures Reaches(c, Repeat(k), Unheard(c, k)) && Inv(c, Unheard(c, k))
  {
    hide Inv, Next, OnCheck, OnSendFirst, OnDebit;
    InitialInv(c);
    if k == 0 {
      assert Unheard(c, 0) == Initial(c);
    } else {
      UnheardRun(c, k - 1);
      var s := Unheard(c, k - 1);
      OneMore(c, k - 1);
      ThreeSteps(c, s, OnCheck(c, s).value, OnSendFirst(c, OnCheck(c, s).value).value, Unheard(c, k));
      RunSplit(c, Initial(c), Repeat(k - 1), [Check, SendFirst, Debit], s, Unheard(c, k));
      RunKeeps(c, s, [Check, SendFirst, Debit], Unheard(c, k));
    }
  }

  const LOST: nat := 2995

  /** The first 2995 chunks of the file are full. */
  predicate LongFile(c: Config) {
    Sound(c) && |c.lengths| > LOST && forall i :: 0 <= i < LOST ==> c.lengths[i] == CHUNK_SIZE
  }

  /** None of the first 2995 packets arrives, and nothing is sent again: a repair request comes only after DONE. */
  predicate AllLost(events: seq<Event>) {
    forall i :: 0 <= i < |events| ==> !events[i].Resend? && (events[i].Arrives? ==> events[i].k >= LOST)
  }

  /** Too little credit for a chunk, nothing pending, no grant on its way, and no chunk behind the lost ones. */
  ghost predicate Stalled(s: State) {
    && (s.sender.phase.Checking? || s.sender.phase.Finished?)
    && s.sender.next == LOST && s.sender.credits == INITIAL_CREDIT - LOST * CHUNK_SIZE
    && s.receiver.ledger.flowPending == 0
    && (forall i :: 0 <= i < |s.back.log| ==> !s.back.log[i].Flow?)
    && (forall i :: LOST <= i < |s.forth.log| ==> !s.forth.log[i].Chunk?)
  }

  lemma StalledStays(c: Config, s: State, e: Event)
    requires Inv(c, s) && Stalled(s) && Next(c, s, e).Some?
    requires !e.Resend? && (e.Arrives? ==> e.k >= LOST)
    ensures Stalled(Next(c, s, e).value)
  {
    hide Balanced, Sum, Picked, Account;
  }

  lemma {:induction false} StallsOn(c: Config, s: State, events: seq<Event>, s': State)
    requires Inv(c, s) && Stalled(s) && Run(c, s, events, s') && AllLost(events)
    ensures Stalled(s')
    decreases |events|
  {
    hide Next, Inv, Stalled;
    InvLength(c, s);
    if events != [] {
      StepKeeps(c, s, events[0]);
      StalledStays(c, s, events[0]);
      assert AllLost(events[1..]) by { assert forall i :: 0 <= i < |events[1..]| ==> events[1..][i] == events[i + 1]; }
      StallsOn(c, Next(c, s, events[0]).value, events[1..], s');
    }
  }

  /**
   The promise needs the absence of loss. When the first 2995 full chunks are lost the sender stands
   with 1304 bytes of credit, and in every continuation, however long, in which they stay lost, it
   cannot send and no grant appears: it only can give up waiting.
   */
  lemma LossStalls(c: Config, events: seq<Event>, s: State)
    requires LongFile(c) && AllLost(events)
    ensures Reaches(c, Repeat(LOST), Unheard(c, LOST)) && Inv(c, Unheard(c, LOST))
    ensures Run(c, Unheard(c, LOST), events, s) ==>
      && OnCheck(c, s).None? && (s.sender.phase.Checking? || s.sender.phase.Finished?)
      && s.sender.credits == 1304
      && forall i :: 0 <= i < |s.back.log| ==> !s.back.log[i].Flow?
  {
    hide Repeat, Run, Inv, Reaches;
    UnheardRun(c, LOST);
    if Run(c, Unheard(c, LOST), events, s) { StallsOn(c, Unheard(c, LOST), events, s); }
  }
}
