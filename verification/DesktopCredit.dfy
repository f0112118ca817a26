/**
 Credit of the desktop v2 sender. Each stretch of code between two awaits is one step, so grants and
 loss backoffs may come between the credit check of a chunk and its debit.
 */
module DesktopCredit {
  import opened Common

  const MIB: nat := 1024 * 1024
  const FLOW_WINDOW: nat := 256 * MIB
  const LAN_FLOW_WINDOW: nat := 512 * MIB
  const BULK_FLOW_WINDOW: nat := 768 * MIB
  const WAN_STARTUP: nat := 4 * MIB
  const LAN_STARTUP: nat := 16 * MIB
  const MIN_WINDOW: nat := 512 * 1024
  const WINDOW_GAIN: nat := 2
  const ACK_STEP_MAX: nat := 64 * MIB
  const GRANT_MAX_BURST: nat := FLOW_WINDOW
  const FUTURE_SLACK: nat := 2 * FLOW_WINDOW

  /** Where the one first-send of a transfer stands. */
  datatype Phase =
    | Idle
    | Waiting(bytes: nat) // in state.waiting
    | Woken(bytes: nat)   // its promise is resolved, the check comes again
    | Cleared(bytes: nat) // the check has passed, the debit is still to come

  /** `flowSeen` says that a grant has been taken before, so that the next one is measured. */
  datatype Credit = Credit(
    isLan: bool, credits: int, sentBytes: nat, totalGrantedBytes: nat, dynamicWindowBytes: nat, flowSeen: bool, phase: Phase)

  function Startup(isLan: bool): nat {
    if isLan then LAN_STARTUP else WAN_STARTUP
  }

  function Begin(isLan: bool, isBulk: bool): Credit {
    Credit(isLan, Startup(isLan), 0, Startup(isLan),
           if isLan then LAN_FLOW_WINDOW else if isBulk then BULK_FLOW_WINDOW else FLOW_WINDOW, false, Idle)
  }

  /** A LAN transfer starts with 16 MiB of credit and a window of 512 MiB, others with 4 MiB and 256 or 768 MiB. */
  lemma BeginExactly(isLan: bool, isBulk: bool)
    ensures var c := Begin(isLan, isBulk);
      && c.credits == c.totalGrantedBytes == (if isLan then 16 else 4) * MIB && c.sentBytes == 0
      && (isLan ==> c.dynamicWindowBytes == 512 * MIB)
      && (!isLan && isBulk ==> c.dynamicWindowBytes == 768 * MIB)
      && (!isLan && !isBulk ==> c.dynamicWindowBytes == 256 * MIB)
      && c.isLan == isLan && !c.flowSeen && c.phase.Idle?
  {
  }

  function CreditCap(window: nat): (cap: nat)
    ensures MIN_WINDOW <= cap <= FLOW_WINDOW
  {
    Max(MIN_WINDOW, Min(FLOW_WINDOW, if window == 0 then FLOW_WINDOW else window))
  }

  /** Up to 128 MiB at once, or up to twice the credit cap if that is more, but never above 256 MiB. */
  predicate Acceptable(bytes: int, cap: nat) {
    0 < bytes && (bytes <= 128 * MIB || (bytes <= 2 * cap && bytes <= 256 * MIB))
  }

  /** As every state of a transfer is: the startup credit counts as granted, and no window is below 512 KiB. */
  predicate InUse(c: Credit) {
    c.totalGrantedBytes > 0 && c.dynamicWindowBytes >= MIN_WINDOW
  }

  /** How far the total may run ahead of what was sent: 512 MiB and the window. */
  function Limit(c: Credit): nat {
    c.sentBytes + Min(c.dynamicWindowBytes, 256 * MIB) + 512 * MIB
  }

  /** The part of a grant that is believed: all of it, what the limit leaves, or nothing. */
  function ValidateGrantedBytes(c: Credit, bytes: int): (granted: nat)
    ensures InUse(c) && Acceptable(bytes, Min(c.dynamicWindowBytes, 256 * MIB)) && c.totalGrantedBytes + bytes <= Limit(c) ==> granted == bytes
    ensures InUse(c) && Acceptable(bytes, Min(c.dynamicWindowBytes, 256 * MIB)) && c.totalGrantedBytes < Limit(c) < c.totalGrantedBytes + bytes ==>
      c.totalGrantedBytes + granted == Limit(c)
    ensures InUse(c) && (!Acceptable(bytes, Min(c.dynamicWindowBytes, 256 * MIB)) || Limit(c) <= c.totalGrantedBytes) ==> granted == 0
    ensures granted <= Max(0, bytes)
    ensures granted > 0 ==> granted <= FLOW_WINDOW
    ensures granted > 0 ==> c.totalGrantedBytes + granted <= c.sentBytes + FLOW_WINDOW + FUTURE_SLACK
  {
    var cap := CreditCap(c.dynamicWindowBytes);
    var maxBurst := Max(2 * ACK_STEP_MAX, Min(GRANT_MAX_BURST, 2 * cap));
    var soFar := if c.totalGrantedBytes == 0 then FLOW_WINDOW else c.totalGrantedBytes;
    var futureCap := c.sentBytes + Max(ACK_STEP_MAX, cap + FUTURE_SLACK);
    if bytes <= 0 || bytes > maxBurst || soFar >= futureCap then 0 else Min(bytes, futureCap - soFar)
  }

  /** Twice the bandwidth-delay product, but between 1 MiB and 256 MiB. */
  function Measured(bdp: int): (window: nat)
    ensures 512 * 1024 <= bdp <= 128 * MIB ==> window == 2 * bdp
    ensures bdp < 512 * 1024 ==> window == MIB
    ensures bdp > 128 * MIB ==> window == 256 * MIB
  {
    Max(MIN_WINDOW, Min(FLOW_WINDOW, WINDOW_GAIN * Max(MIN_WINDOW, bdp)))
  }

  function Wake(p: Phase): Phase {
    if p.Waiting? then Woken(p.bytes) else p
  }

  /**
   resolveCredits: the grant is checked against the old window and capped by the new one. The first
   grant of a transfer is not measured and leaves the window as it is.
   */
  function ResolveCredits(c: Credit, bytes: int, bdp: int): Credit {
    var granted := ValidateGrantedBytes(c, bytes);
    if granted <= 0 then c
    else
      var window := if c.flowSeen then Measured(bdp) else c.dynamicWindowBytes;
      c.(dynamicWindowBytes := window,
         flowSeen := true,
         credits := Min(CreditCap(window), c.credits + granted),
         totalGrantedBytes := c.totalGrantedBytes + granted,
         phase := Wake(c.phase))
  }

  /** applyLossBackoff: 85 percent of the window, rounded; `due` is the rate limit. */
  function ApplyLossBackoff(c: Credit, due: bool): Credit {
    if !due then c
    else
      var maxWindow := if c.isLan then LAN_FLOW_WINDOW else FLOW_WINDOW;
      var window := if c.dynamicWindowBytes == 0 then maxWindow else c.dynamicWindowBytes;
      c.(dynamicWindowBytes := Max(MIN_WINDOW, Min(maxWindow, (17 * window + 10) / 20)))
  }

  function Check(c: Credit, bytes: nat): Credit {
    c.(phase := if c.credits < bytes then Waiting(bytes) else Cleared(bytes))
  }

  function Debit(c: Credit, bytes: nat): Credit {
    c.(phase := Idle, credits := c.credits - bytes, sentBytes := c.sentBytes + bytes)
  }

  datatype Event =
    | Ask(bytes: nat)     // a first-send reaches waitForCredits
    | Retry               // a woken first-send looks again
    | TimeOut             // the wait is given up
    | Pay                 // the first-send is out and debited
    | Fail                // pacing or sending throws, and the queue goes on
    | Grant(granted: int, bdp: int)
    | Backoff(due: bool)

  function Next(c: Credit, e: Event): Option<Credit> {
    match e
    case Ask(bytes) => if c.phase.Idle? then Some(Check(c, bytes)) else None
    case Retry => if c.phase.Woken? then Some(Check(c, c.phase.bytes)) else None
    case TimeOut => if c.phase.Waiting? then Some(c.(phase := Idle)) else None
    case Pay => if c.phase.Cleared? then Some(Debit(c, c.phase.bytes)) else None
    case Fail => if c.phase.Cleared? then Some(c.(phase := Idle)) else None
    case Grant(bytes, bdp) => Some(ResolveCredits(c, bytes, bdp))
    case Backoff(due) => Some(ApplyLossBackoff(c, due))
  }

  /**
   The one first-send: it asks when none is under way, waits exactly if the credit is short, looks again only
   after being woken, gives up only while waiting, and pays only after it was cleared, what it was cleared for.
   */
  lemma SendExactly(c: Credit, bytes: nat)
    ensures Next(c, Ask(bytes)).Some? <==> c.phase.Idle?
    ensures Next(c, Retry).Some? <==> c.phase.Woken?
    ensures Next(c, TimeOut).Some? <==> c.phase.Waiting?
    ensures Next(c, Pay).Some? <==> c.phase.Cleared?
    ensures Next(c, Fail).Some? <==> c.phase.Cleared?
    ensures c.phase.Idle? ==>
      Next(c, Ask(bytes)).value == c.(phase := if bytes <= c.credits then Cleared(bytes) else Waiting(bytes))
    ensures c.phase.Woken? ==>
      Next(c, Retry).value == c.(phase := if c.phase.bytes <= c.credits then Cleared(c.phase.bytes) else Waiting(c.phase.bytes))
    ensures c.phase.Waiting? ==> Next(c, TimeOut).value == c.(phase := Idle)
    ensures c.phase.Cleared? ==> Next(c, Fail).value == c.(phase := Idle)
    ensures c.phase.Cleared? ==> var c' := Next(c, Pay).value;
      && c'.credits + c.phase.bytes == c.credits && c'.sentBytes == c.sentBytes + c.phase.bytes && c'.phase.Idle?
      && c'.totalGrantedBytes == c.totalGrantedBytes && c'.dynamicWindowBytes == c.dynamicWindowBytes
  {
  }

  /**
   Credit stays within [0, 256 MiB]; what was sent plus the credit never exceeds what was granted,
   and what was granted never runs ahead of what was sent by more than 768 MiB. A waiting send lacks
   credit; a cleared one still has it.
   */
  predicate Inv(c: Credit) {
    && 0 <= c.credits <= FLOW_WINDOW
    && c.sentBytes + c.credits <= c.totalGrantedBytes <= c.sentBytes + FLOW_WINDOW + FUTURE_SLACK
    && c.totalGrantedBytes > 0
    && MIN_WINDOW <= c.dynamicWindowBytes <= BULK_FLOW_WINDOW
    && (c.phase.Waiting? ==> c.credits < c.phase.bytes)
    && (c.phase.Cleared? ==> c.phase.bytes <= c.credits)
  }

  /** Chunks are far smaller than the smallest window. */
  predicate Small(c: Credit) {
    !c.phase.Idle? ==> c.phase.bytes <= MIN_WINDOW
  }

  lemma StepKeeps(c: Credit, e: Event)
    requires Inv(c) && Small(c) && Next(c, e).Some? && (e.Ask? ==> e.bytes <= MIN_WINDOW)
    ensures Inv(Next(c, e).value) && Small(Next(c, e).value)
  {
    if e.Grant? { GrantKeeps(c, e.granted, e.bdp); }
  }

  /**
   A grant may shrink the credit to a smaller window, but the first one not below 512 KiB and the
   later ones not below 1 MiB.
   */
  lemma GrantKeeps(c: Credit, bytes: int, bdp: int)
    requires Inv(c)
    ensures var c' := ResolveCredits(c, bytes, bdp);
      && c'.credits >= Min(c.credits, if c.flowSeen then 2 * MIN_WINDOW else MIN_WINDOW) && c'.sentBytes == c.sentBytes
      && (Small(c) ==> Inv(c'))
  {
    hide ValidateGrantedBytes, Measured;
  }

  // What a grant is worth.

  /**
   An acceptable grant is believed to the byte as long as the total stays within 512 MiB and the
   window of what was sent, in part if it goes beyond, and not at all once the total is there; every other
   grant changes nothing.
   */
  lemma GrantExactly(c: Credit, bytes: int, bdp: int)
    requires Inv(c)
    ensures var c', cap := ResolveCredits(c, bytes, bdp), Min(c.dynamicWindowBytes, 256 * MIB);
      var limit := c.sentBytes + cap + 512 * MIB;
      && (Acceptable(bytes, cap) && c.totalGrantedBytes + bytes <= limit ==> c'.totalGrantedBytes == c.totalGrantedBytes + bytes)
      && (Acceptable(bytes, cap) && c.totalGrantedBytes < limit < c.totalGrantedBytes + bytes ==> c'.totalGrantedBytes == limit)
      && (!Acceptable(bytes, cap) || limit <= c.totalGrantedBytes ==> c' == c)
  {
    hide Measured;
  }

  /** What is believed is credited to the byte, up to the new window, and wakes a waiting send. */
  lemma BelievedIsCredited(c: Credit, bytes: int, bdp: int)
    requires Inv(c)
    ensures var c' := ResolveCredits(c, bytes, bdp);
      var believed, cap := c'.totalGrantedBytes - c.totalGrantedBytes, Min(c'.dynamicWindowBytes, 256 * MIB);
      && believed >= 0
      && (believed > 0 && c.credits + believed <= cap ==> c'.credits == c.credits + believed)
      && (believed > 0 && c.credits + believed > cap ==> c'.credits == cap)
      && (believed > 0 ==> c'.phase == Wake(c.phase) && c'.flowSeen)
      && (believed > 0 ==> c'.dynamicWindowBytes == if c.flowSeen then Measured(bdp) else c.dynamicWindowBytes)
      && c'.sentBytes == c.sentBytes && c'.isLan == c.isLan
  {
    hide Measured, ValidateGrantedBytes;
    MeasuredRange(bdp);
  }

  lemma MeasuredRange(bdp: int)
    ensures 2 * MIN_WINDOW <= Measured(bdp) <= FLOW_WINDOW
  {
  }

  predicate Run(c: Credit, events: seq<Event>, c': Credit)
    decreases |events|
  {
    if events == [] then c' == c
    else Next(c, events[0]).Some? && Run(Next(c, events[0]).value, events[1..], c')
  }

  predicate AsksAtMost(events: seq<Event>, limit: nat) {
    forall i :: 0 <= i < |events| && events[i].Ask? ==> events[i].bytes <= limit
  }

  lemma {:induction false} RunKeeps(c: Credit, events: seq<Event>, c': Credit)
    requires Inv(c) && Small(c) && AsksAtMost(events, MIN_WINDOW) && Run(c, events, c')
    ensures Inv(c')
    decreases |events|
  {
    hide Inv, Small, Next;
    if events != [] {
      StepKeeps(c, events[0]);
      assert AsksAtMost(events[1..], MIN_WINDOW) by { assert forall i :: 0 <= i < |events[1..]| ==> events[1..][i] == events[i + 1]; }
      RunKeeps(Next(c, events[0]).value, events[1..], c');
    }
  }

  /** Over every interleaving of sends, grants and loss backoffs, from both startups. */
  lemma CreditBounded(isLan: bool, isBulk: bool, events: seq<Event>, c: Credit)
    requires AsksAtMost(events, MIN_WINDOW) && Run(Begin(isLan, isBulk), events, c)
    ensures 0 <= c.credits <= 256 * MIB
    ensures c.sentBytes + c.credits <= c.totalGrantedBytes <= c.sentBytes + 768 * MIB
    ensures c.phase.Cleared? ==> Debit(c, c.phase.bytes).credits >= 0
    ensures c.phase.Waiting? ==> c.credits < c.phase.bytes
  {
    RunKeeps(Begin(isLan, isBulk), events, c);
  }

  // A receiver that grants what it has received.

  /**
   A run in which every grant is for bytes that were sent and not granted before, at most 128 MiB at
   once; `acked` counts the bytes granted.
   */
  predicate HonestRun(c: Credit, acked: nat, events: seq<Event>, c': Credit, acked': nat)
    decreases |events|
  {
    if events == [] then c' == c && acked' == acked
    else
      && Next(c, events[0]).Some?
      && (events[0].Grant? ==> 0 < events[0].granted <= 128 * MIB && acked + events[0].granted <= c.sentBytes)
      && HonestRun(Next(c, events[0]).value, Acked(acked, events[0]), events[1..], c', acked')
  }

  function Acked(acked: nat, e: Event): nat {
    if e.Grant? then acked + Max(0, e.granted) else acked
  }

  /** Every grant is believed in full, and credit with what is still to be granted covers a chunk. */
  predicate Fed(c: Credit, acked: nat) {
    && c.totalGrantedBytes == Startup(c.isLan) + acked && acked <= c.sentBytes
    && c.credits + c.sentBytes - acked >= MIN_WINDOW
  }

  lemma StepFeeds(c: Credit, acked: nat, e: Event)
    requires Inv(c) && Small(c) && Fed(c, acked) && Next(c, e).Some? && (e.Ask? ==> e.bytes <= MIN_WINDOW)
    requires e.Grant? ==> 0 < e.granted <= 128 * MIB && acked + e.granted <= c.sentBytes
    ensures Fed(Next(c, e).value, Acked(acked, e))
  {
    hide ResolveCredits;
    if e.Grant? {
      GrantExactly(c, e.granted, e.bdp);
      BelievedIsCredited(c, e.granted, e.bdp);
      GrantKeeps(c, e.granted, e.bdp);
    }
  }

  lemma {:induction false} HonestKeeps(c: Credit, acked: nat, events: seq<Event>, c': Credit, acked': nat)
    requires Inv(c) && Small(c) && Fed(c, acked)
    requires AsksAtMost(events, MIN_WINDOW) && HonestRun(c, acked, events, c', acked')
    ensures Inv(c') && Small(c') && Fed(c', acked') && c'.isLan == c.isLan
    decreases |events|
  {
    hide Inv, Small, Next, Fed;
    if events != [] {
      StepKeeps(c, events[0]);
      StepFeeds(c, acked, events[0]);
      StepSide(c, events[0]);
      assert AsksAtMost(events[1..], MIN_WINDOW) by { assert forall i :: 0 <= i < |events[1..]| ==> events[1..][i] == events[i + 1]; }
      HonestKeeps(Next(c, events[0]).value, Acked(acked, events[0]), events[1..], c', acked');
    }
  }

  lemma StepSide(c: Credit, e: Event)
    requires Next(c, e).Some?
    ensures Next(c, e).value.isLan == c.isLan
  {
  }

  /**
   A sender whose sent bytes are all granted back is never left waiting, whatever windows were measured
   and however many losses came between: it has at least 512 KiB of credit, and no first-send waits.
   As long as one does wait, bytes are outstanding. The total is the startup credit and the bytes granted.
   */
  lemma NeverStarved(isLan: bool, isBulk: bool, events: seq<Event>, c: Credit, acked: nat)
    requires AsksAtMost(events, 512 * 1024) && HonestRun(Begin(isLan, isBulk), 0, events, c, acked)
    ensures acked == c.sentBytes ==> !c.phase.Waiting? && c.credits >= 512 * 1024
    ensures c.phase.Waiting? ==> acked < c.sentBytes
    ensures c.totalGrantedBytes == (if isLan then 16 else 4) * MIB + acked
  {
    HonestKeeps(Begin(isLan, isBulk), 0, events, c, acked);
  }

  /** No grant of the run takes the credit above the window. */
  predicate Uncapped(c: Credit, events: seq<Event>)
    decreases |events|
  {
    events != [] && Next(c, events[0]).Some? ==>
      && (events[0].Grant? ==> Fits(c.credits + events[0].granted, Next(c, events[0]).value))
      && Uncapped(Next(c, events[0]).value, events[1..])
  }

  predicate Fits(credits: int, c: Credit) {
    credits <= c.dynamicWindowBytes && credits <= 256 * MIB
  }

  lemma {:induction false} UncappedKeeps(c: Credit, acked: nat, events: seq<Event>, c': Credit, acked': nat)
    requires Inv(c) && Small(c) && Fed(c, acked) && c.credits + c.sentBytes == c.totalGrantedBytes
    requires AsksAtMost(events, MIN_WINDOW) && HonestRun(c, acked, events, c', acked') && Uncapped(c, events)
    ensures c'.credits + c'.sentBytes == c'.totalGrantedBytes
    decreases |events|
  {
    hide Inv, Small, Fed, ResolveCredits;
    if events != [] {
      StepKeeps(c, events[0]);
      StepFeeds(c, acked, events[0]);
      if events[0].Grant? { UncappedGrant(c, acked, events[0].granted, events[0].bdp); }
      assert AsksAtMost(events[1..], MIN_WINDOW) by { assert forall i :: 0 <= i < |events[1..]| ==> events[1..][i] == events[i + 1]; }
      UncappedKeeps(Next(c, events[0]).value, Acked(acked, events[0]), events[1..], c', acked');
    }
  }

  lemma UncappedGrant(c: Credit, acked: nat, bytes: int, bdp: int)
    requires Inv(c) && Fed(c, acked) && 0 < bytes <= 128 * MIB && acked + bytes <= c.sentBytes
    requires Fits(c.credits + bytes, ResolveCredits(c, bytes, bdp))
    ensures var c' := ResolveCredits(c, bytes, bdp);
      && c'.credits == c.credits + bytes && c'.totalGrantedBytes == c.totalGrantedBytes + bytes && c'.sentBytes == c.sentBytes
  {
    hide ResolveCredits;
    GrantExactly(c, bytes, bdp);
    BelievedIsCredited(c, bytes, bdp);
  }

  /** Without a cap the books balance: the credit is the startup credit and the grants, less what was sent. */
  lemma CreditConserved(isLan: bool, isBulk: bool, events: seq<Event>, c: Credit, acked: nat)
    requires AsksAtMost(events, 512 * 1024) && HonestRun(Begin(isLan, isBulk), 0, events, c, acked)
    requires Uncapped(Begin(isLan, isBulk), events)
    ensures c.credits == (if isLan then 16 else 4) * MIB + acked - c.sentBytes
  {
    HonestKeeps(Begin(isLan, isBulk), 0, events, c, acked);
    UncappedKeeps(Begin(isLan, isBulk), 0, events, c, acked);
  }

  // Where the bound on the chunks comes from.

  function Backoffs(k: nat): (es: seq<Event>)
    ensures |es| == k
  {
    seq(k, _ => Backoff(true))
  }

  /** Enough losses bring the window down to 512 KiB, without any grant. */
  lemma {:induction false} LossesReachFloor(c: Credit) returns (k: nat)
    requires c.dynamicWindowBytes >= MIN_WINDOW
    ensures Run(c, Backoffs(k), c.(dynamicWindowBytes := MIN_WINDOW))
    decreases c.dynamicWindowBytes
  {
    if c.dynamicWindowBytes == MIN_WINDOW { return 0; }
    var next := ApplyLossBackoff(c, true);
    var rest := LossesReachFloor(next);
    k := rest + 1;
    assert Backoffs(k)[0] == Backoff(true) && Backoffs(k)[1..] == Backoffs(rest);
  }

  lemma {:induction false} RunJoin(c: Credit, xs: seq<Event>, mid: Credit, ys: seq<Event>, end: Credit)
    requires Run(c, xs, mid) && Run(mid, ys, end)
    ensures Run(c, xs + ys, end)
    decreases |xs|
  {
    hide Next;
    if xs == [] {
      assert xs + ys == ys;
    } else {
      assert (xs + ys)[0] == xs[0] && (xs + ys)[1..] == xs[1..] + ys;
      RunJoin(Next(c, xs[0]).value, xs[1..], mid, ys, end);
    }
  }

  lemma RunThree(c: Credit, a: Event, b: Event, d: Event, c1: Credit, c2: Credit, c3: Credit)
    requires Next(c, a) == Some(c1) && Next(c1, b) == Some(c2) && Next(c2, d) == Some(c3)
    ensures Run(c, [a, b, d], c3)
  {
    hide Next;
    var all := [a, b, d];
    assert all[1..] == [b, d] && all[1..][1..] == [d] && all[1..][1..][1..] == [];
    assert Run(c2, [d], c3);
    assert Run(c1, [b, d], c3);
  }

  /**
   Losses before the first grant: for every chunk above 512 KiB that the startup credit covers, that
   grant, of whatever size, between check and debit leaves the credit negative.
   */
  lemma FirstGrantOverdraws(isLan: bool, isBulk: bool, bytes: nat, grant: nat) returns (events: seq<Event>, c: Credit)
    requires MIN_WINDOW < bytes <= Startup(isLan) && 0 < grant <= 2 * ACK_STEP_MAX
    ensures Run(Begin(isLan, isBulk), events, c) && c.credits < 0 && AsksAtMost(events, bytes)
  {
    var begin := Begin(isLan, isBulk);
    var k := LossesReachFloor(begin);
    var low := begin.(dynamicWindowBytes := MIN_WINDOW);
    var asked, granted := Check(low, bytes), ResolveCredits(Check(low, bytes), grant, 0);
    c := Debit(granted, bytes);
    RunThree(low, Ask(bytes), Grant(grant, 0), Pay, asked, granted, c);
    RunJoin(begin, Backoffs(k), low, [Ask(bytes), Grant(grant, 0), Pay], c);
    events := Backoffs(k) + [Ask(bytes), Grant(grant, 0), Pay];
  }

  /**
   Without any loss the limit is 1 MiB: outside a LAN, where the bandwidth is first put at 32 or
   64 MiB a second, a second grant of up to 512 KiB that comes 4 to 8 milliseconds after the first
   measures at most 512 KiB and overdraws every larger chunk that was cleared before it.
   */
  lemma MeasuredGrantOverdraws(isBulk: bool, bytes: nat, grant: nat, bdp: int) returns (c: Credit)
    requires 2 * MIN_WINDOW < bytes <= WAN_STARTUP && 0 < grant <= bdp <= MIN_WINDOW
    ensures Run(Begin(false, isBulk), [Grant(grant, bdp)] + [Ask(bytes), Grant(grant, bdp), Pay], c) && c.credits < 0
  {
    var begin := Begin(false, isBulk);
    var first := ResolveCredits(begin, grant, bdp);
    var asked, granted := Check(first, bytes), ResolveCredits(Check(first, bytes), grant, bdp);
    c := Debit(granted, bytes);
    RunThree(first, Ask(bytes), Grant(grant, bdp), Pay, asked, granted, c);
    assert [Grant(grant, bdp)][1..] == [];
    assert Run(begin, [Grant(grant, bdp)], first);
    RunJoin(begin, [Grant(grant, bdp)], first, [Ask(bytes), Grant(grant, bdp), Pay], c);
  }

  ghost predicate NeverOverdrawn(isLan: bool, isBulk: bool, limit: nat) {
    forall events, c :: Run(Begin(isLan, isBulk), events, c) && AsksAtMost(events, limit) ==> c.credits >= 0
  }

  /** The credit never becomes negative exactly if no chunk exceeds 512 KiB. */
  lemma OverdrawnExactly(isLan: bool, isBulk: bool, limit: nat)
    ensures NeverOverdrawn(isLan, isBulk, limit) <==> limit <= MIN_WINDOW
  {
    if limit <= MIN_WINDOW {
      forall events, c | Run(Begin(isLan, isBulk), events, c) && AsksAtMost(events, limit) ensures c.credits >= 0 {
        assert AsksAtMost(events, MIN_WINDOW);
        RunKeeps(Begin(isLan, isBulk), events, c);
      }
    } else {
      var events, c := FirstGrantOverdraws(isLan, isBulk, MIN_WINDOW + 1, 1);
      assert AsksAtMost(events, limit);
    }
  }

  /** A loss backoff only ever lowers the window, and leaves the credit to later grants. */
  lemma BackoffLowers(c: Credit, due: bool)
    requires Inv(c)
    ensures var c' := ApplyLossBackoff(c, due);
      && c'.dynamicWindowBytes <= c.dynamicWindowBytes
      && (due && c.dynamicWindowBytes > MIN_WINDOW ==> c'.dynamicWindowBytes < c.dynamicWindowBytes)
      && c' == c.(dynamicWindowBytes := c'.dynamicWindowBytes)
  {
  }

  /** It takes off 15 percent, rounded to the nearest byte, within 512 KiB and the limit of the path. */
  lemma BackoffRate(c: Credit)
    requires Inv(c)
    ensures var (w, w', most) := (c.dynamicWindowBytes, ApplyLossBackoff(c, true).dynamicWindowBytes, if c.isLan then 512 * MIB else 256 * MIB);
      && MIN_WINDOW <= w' <= most
      && (MIN_WINDOW < w' < most ==> -10 < 20 * w' - 17 * w <= 10)
      && (w' == MIN_WINDOW ==> 17 * w < 20 * MIN_WINDOW + 10)
      && (w' == most ==> 17 * w >= 20 * most - 10)
  {
  }

  // The sender's state object.

  class Outgoing {
    const isLan: bool
    var credits: int
    var sentBytes: nat
    var totalGrantedBytes: nat
    var dynamicWindowBytes: nat
    var flowSeen: bool // lastFlowAt > 0
    var phase: Phase

    constructor (isLan: bool, isBulk: bool)
      ensures View() == Begin(isLan, isBulk)
    {
      this.isLan := isLan;
      var startup := if isLan then LAN_STARTUP else WAN_STARTUP;
      credits, sentBytes, totalGrantedBytes, flowSeen, phase := startup, 0, startup, false, Idle;
      dynamicWindowBytes := if isLan then LAN_FLOW_WINDOW else if isBulk then BULK_FLOW_WINDOW else FLOW_WINDOW;
    }

    function View(): Credit
      reads this
    {
      Credit(isLan, credits, sentBytes, totalGrantedBytes, dynamicWindowBytes, flowSeen, phase)
    }

    /** The test of the wait loop. */
    method WaitForCredits(bytes: nat)
      requires phase == Idle || phase == Woken(bytes)
      modifies `phase
      ensures View() == Check(old(View()), bytes)
    {
      if credits < bytes { phase := Waiting(bytes); } else { phase := Cleared(bytes); }
    }

    /** The end of sendChunkPacket for a first-send. */
    method Settle()
      requires phase.Cleared?
      modifies `phase, `credits, `sentBytes
      ensures View() == Debit(old(View()), old(phase).bytes)
    {
      credits := credits - phase.bytes;
      sentBytes := sentBytes + phase.bytes;
      phase := Idle;
    }

    /** sendChunkPacket throws after the check: nothing is debited. */
    method Abandon()
      requires phase.Cleared?
      modifies `phase
      ensures Next(old(View()), Fail) == Some(View())
    {
      phase := Idle;
    }

    /** `bdp` is the bandwidth-delay product that goes with the grant; the first grant ignores it. */
    method OnFlow(bytes: int, bdp: int)
      modifies `credits, `totalGrantedBytes, `dynamicWindowBytes, `flowSeen, `phase
      ensures View() == ResolveCredits(old(View()), bytes, bdp)
    {
      var granted := Validate(bytes);
      if granted <= 0 { return; }
      if flowSeen {
        var bdpBytes := Max(MIN_WINDOW, bdp);
        dynamicWindowBytes := Max(MIN_WINDOW, Min(FLOW_WINDOW, bdpBytes * WINDOW_GAIN));
      }
      flowSeen := true;
      var cap := Max(MIN_WINDOW, Min(FLOW_WINDOW, if dynamicWindowBytes == 0 then FLOW_WINDOW else dynamicWindowBytes));
      credits := Min(cap, credits + granted);
      totalGrantedBytes := totalGrantedBytes + granted;
      if phase.Waiting? { phase := Woken(phase.bytes); }
    }

    method Validate(bytes: int) returns (granted: nat)
      ensures granted == ValidateGrantedBytes(View(), bytes)
    {
      if bytes <= 0 { return 0; }
      var cap := Max(MIN_WINDOW, Min(FLOW_WINDOW, if dynamicWindowBytes == 0 then FLOW_WINDOW else dynamicWindowBytes));
      var maxBurst := Max(2 * ACK_STEP_MAX, Min(GRANT_MAX_BURST, 2 * cap));
      if bytes > maxBurst { return 0; }
      var soFar := if totalGrantedBytes == 0 then FLOW_WINDOW else totalGrantedBytes;
      var futureCap := sentBytes + Max(ACK_STEP_MAX, cap + FUTURE_SLACK);
      if soFar >= futureCap { return 0; }
      granted := Min(bytes, futureCap - soFar);
    }

    method OnLoss(due: bool)
      modifies `dynamicWindowBytes
      ensures View() == ApplyLossBackoff(old(View()), due)
    {
      if !due { return; }
      var maxWindow := if isLan then LAN_FLOW_WINDOW else FLOW_WINDOW;
      var window := if dynamicWindowBytes == 0 then maxWindow else dynamicWindowBytes;
      dynamicWindowBytes := Max(MIN_WINDOW, Min(maxWindow, (17 * window + 10) / 20));
    }
  }
}
