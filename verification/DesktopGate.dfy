/**
 The gate in front of the desktop's UDP socket: at most 512 sends are outstanding, and senders that
 find the gate closed wait until the number falls to 256. Each stretch between awaits is one step;
 the disconnect, which resets the gate, is not part of this machine.
 */
module DesktopGate {
  import opened Common

  const MAX_INFLIGHT: nat := 512
  const RESUME: nat := 256

  /**
   `entering` calls have not reached the test, `waiting` ones sit in the waiter list, `ready` ones have
   been woken and test again; `inflight` sends are with the socket, `finished` are done.
   */
  datatype Gate = Gate(entering: nat, waiting: nat, ready: nat, inflight: nat, finished: nat)

  datatype Step =
    | Enter    // a new call runs up to its first wait, or sends
    | Recheck  // a woken call tests again
    | Callback // the socket reports one send done

  /** The test, and what follows it up to the next await. */
  function Test(g: Gate): Gate {
    if g.inflight >= MAX_INFLIGHT then g.(waiting := g.waiting + 1) else g.(inflight := g.inflight + 1)
  }

  function Done(g: Gate): Gate {
    var left := Max(0, g.inflight - 1);
    if left <= RESUME && g.waiting > 0
    then Gate(g.entering, 0, g.ready + g.waiting, left, g.finished + 1)
    else g.(inflight := left, finished := g.finished + 1)
  }

  function Next(g: Gate, step: Step): Option<Gate> {
    match step
    case Enter => if g.entering == 0 then None else Some(Test(g.(entering := g.entering - 1)))
    case Recheck => if g.ready == 0 then None else Some(Test(g.(ready := g.ready - 1)))
    case Callback => if g.inflight == 0 then None else Some(Done(g))
  }

  /** Never more than 512 outstanding; a waiter has more than 256 outstanding sends to wake it. */
  predicate Inv(g: Gate) {
    g.inflight <= MAX_INFLIGHT && (g.waiting > 0 ==> g.inflight > RESUME)
  }

  /**
   A call waits exactly if 512 sends are outstanding when it tests, and is sent otherwise; a finished send
   lets all waiters test again exactly if it leaves at most 256 outstanding.
   */
  lemma StepExactly(g: Gate, step: Step)
    requires Inv(g) && Next(g, step).Some?
    ensures var g' := Next(g, step).value;
      && (step.Enter? ==> g'.entering == g.entering - 1 && g'.ready == g.ready)
      && (step.Recheck? ==> g'.ready == g.ready - 1 && g'.entering == g.entering)
      && (!step.Callback? && g.inflight == 512 ==> g'.waiting == g.waiting + 1 && g'.inflight == 512)
      && (!step.Callback? && g.inflight < 512 ==> g'.waiting == g.waiting && g'.inflight == g.inflight + 1)
      && (!step.Callback? ==> g'.finished == g.finished)
      && (step.Callback? ==> g'.inflight == g.inflight - 1 && g'.finished == g.finished + 1 && g'.entering == g.entering)
      && (step.Callback? && g'.inflight <= 256 ==> g'.waiting == 0 && g'.ready == g.ready + g.waiting)
      && (step.Callback? && g'.inflight > 256 ==> g'.waiting == g.waiting && g'.ready == g.ready)
  {
  }

  predicate Run(g: Gate, steps: seq<Step>, g': Gate)
    decreases |steps|
  {
    if steps == [] then g' == g
    else Next(g, steps[0]).Some? && Run(Next(g, steps[0]).value, steps[1..], g')
  }

  function Calls(g: Gate): nat {
    g.entering + g.waiting + g.ready + g.inflight + g.finished
  }

  /** Work still to be done; calls that were woken may have to wait again, but only for someone's progress. */
  function Unsent(g: Gate): nat {
    g.entering + g.waiting + g.ready
  }

  /** (unsent, inflight, entering + ready) as digits of a number in base k. */
  function Work(g: Gate, k: nat): nat {
    Unsent(g) * (k * k) + g.inflight * k + (g.entering + g.ready)
  }

  lemma StepKeeps(g: Gate, step: Step)
    requires Inv(g) && Next(g, step).Some?
    ensures Inv(Next(g, step).value)
    ensures Calls(Next(g, step).value) == Calls(g)
    ensures Work(Next(g, step).value, Calls(g) + 1) < Work(g, Calls(g) + 1)
  {
    var k, g' := Calls(g) + 1, Next(g, step).value;
    WorkFalls(Unsent(g), Unsent(g'), g.inflight, g'.inflight, g.entering + g.ready, g'.entering + g'.ready, k);
  }

  /** The digits fall lexicographically, and each step moves one call. */
  lemma WorkFalls(u: nat, u': nat, i: nat, i': nat, t: nat, t': nat, k: nat)
    requires t < k && t' < k
    requires (u' + 1 == u && i' == i + 1 && t' <= t && k > 1)
      || (u' == u && i' + 1 == i) || (u' == u && i' == i && t' < t)
    ensures u' * (k * k) + i' * k + t' < u * (k * k) + i * k + t
  {
    if u' + 1 == u {
      assert u * (k * k) == u' * (k * k) + k * k;
      assert i' * k == i * k + k;
      assert k * k >= 2 * k by { Scaled(k); }
    } else if i' + 1 == i {
      assert i * k == i' * k + k;
    }
  }

  lemma Scaled(k: nat)
    requires k > 1
    ensures k * k >= 2 * k
  {
  }

  lemma {:induction false} GateHolds(g: Gate, steps: seq<Step>, g': Gate)
    requires Inv(g) && Run(g, steps, g')
    ensures Inv(g') && Calls(g') == Calls(g)
    ensures |steps| <= Work(g, Calls(g) + 1)
    decreases |steps|
  {
    hide Inv, Next, Calls, Work;
    if steps != [] {
      StepKeeps(g, steps[0]);
      GateHolds(Next(g, steps[0]).value, steps[1..], g');
    }
  }

  /** No wake-up is lost: whenever a call has not been sent, some step is possible. */
  lemma NeverStuck(g: Gate) returns (step: Step)
    requires Inv(g) && Unsent(g) + g.inflight > 0
    ensures Next(g, step).Some?
  {
    if g.entering > 0 { return Enter; }
    if g.ready > 0 { return Recheck; }
    return Callback;
  }

  /** Every schedule is finite, and one that goes on as long as it can sends every call exactly once. */
  lemma AllSent(calls: nat, steps: seq<Step>, g: Gate)
    requires Run(Gate(calls, 0, 0, 0, 0), steps, g)
    requires forall step: Step :: Next(g, step).None?
    ensures g == Gate(0, 0, 0, 0, calls) && |steps| <= Work(Gate(calls, 0, 0, 0, 0), calls + 1)
  {
    GateHolds(Gate(calls, 0, 0, 0, 0), steps, g);
    if Unsent(g) + g.inflight > 0 {
      var step := NeverStuck(g);
      assert false;
    }
  }

  class UdpSender {
    var udpSendInflight: nat
    var waiters: nat
    var ready: nat
    var entering: nat
    var finished: nat

    constructor (calls: nat)
      ensures View() == Gate(calls, 0, 0, 0, 0)
    {
      udpSendInflight, waiters, ready, entering, finished := 0, 0, 0, calls, 0;
    }

    function View(): Gate
      reads this
    {
      Gate(entering, waiters, ready, udpSendInflight, finished)
    }

    /** From the call, or from being woken, to the next await. */
    method SendBufferFast(woken: bool)
      requires if woken then ready > 0 else entering > 0
      modifies `udpSendInflight, `waiters, `ready, `entering
      ensures Next(old(View()), if woken then Recheck else Enter) == Some(View())
    {
      if woken { ready := ready - 1; } else { entering := entering - 1; }
      if udpSendInflight >= MAX_INFLIGHT {
        waiters := waiters + 1;
        return;
      }
      udpSendInflight := udpSendInflight + 1;
    }

    method OnSent()
      requires udpSendInflight > 0
      modifies `udpSendInflight, `waiters, `ready, `finished
      ensures Next(old(View()), Callback) == Some(View())
    {
      udpSendInflight := Max(0, udpSendInflight - 1);
      finished := finished + 1;
      if udpSendInflight <= RESUME && waiters > 0 {
        ready := ready + waiters;
        waiters := 0;
      }
    }
  }
}
