/**
 The receiver of a session and the step machine of the directory are one receiver: every turn of the
 session's receiver on the partial-file path is a run of an attempt on the directory.
 */
module SessionOnDisk {
  import opened Common
  import opened Manifests
  import opened Publication
  import opened Receiver
  import opened Attempts
  import opened Recovery
  import Frames
  import Session

  /** The directory and the attempt stand where the session's receiver stands. Reading moves neither. */
  ghost predicate OnDisk(c: Session.Setup, r: Session.ReceiverState, s: Store, a: Attempt)
    requires |c.m.blocks| == BlockCount(c.m.size) && c.disk.Partial?
  {
    && a.offer == c.m
    && match r
       case Answering =>
         a.phase == Receiving(0) && a.wanted == Session.Wanted(c) && HoldsPart(s, a, Resize(c.disk.part, c.m.size))
       case AwaitBlock(index, _, content) =>
         a.phase == Receiving(index) && a.wanted == Session.Wanted(c) && HoldsPart(s, a, content)
       case AwaitEnd(content) =>
         a.phase == Receiving(|a.wanted|) && a.wanted == Session.Wanted(c) && HoldsPart(s, a, content)
       case Confirming(content) => a.phase == Published && s.Content(c.m.digest) == Some(content)
       case ReceiverOk(content) => a.phase == Replied && s.Content(c.m.digest) == Some(content)
       case _ => false
  }

  /** An accepted offer: the attempt that holds the lock opens, scans and sizes the partial file. */
  lemma OfferOnDisk(c: Session.Setup, s: Store, a: Attempt) returns (actions: seq<Action>, s': Store, a': Attempt)
    requires Valid(c.m) && |c.m.blocks| == BlockCount(c.m.size) && c.disk == Session.Partial(PartOf(s, c.m.digest))
    requires a.phase.Locked? && a.offer == c.m && c.m.digest !in s.names && Openable(s, c.m.digest)
    ensures Solo(c.h, s, a, actions, s', a') && OnDisk(c, Session.Answering, s', a')
  {
    hide Valid, Solo, PartName, Resize, Missing, Openable, BlockCount, PartOf, HoldsPart;
    actions, s', a' := Prepare(c.h, s, a);
  }

  lemma AnswerOnDisk(c: Session.Setup, t: Session.State, s: Store, a: Attempt)
    requires |c.m.blocks| == BlockCount(c.m.size) && c.disk.Partial? && t.receiver.Answering? && OnDisk(c, t.receiver, s, a)
    requires Session.ReceiverTurn(c, t).Some? && !Session.ReceiverTurn(c, t).value.receiver.ReceiverFailed?
    ensures OnDisk(c, Session.ReceiverTurn(c, t).value.receiver, s, a)
  {
    hide Session.ToAnswer, Session.Wanted, BlockCount, Resize, HoldsPart;
  }

  /** A block's turn is skipping it, or taking and writing it. */
  lemma BlockOnDisk(c: Session.Setup, t: Session.State, s: Store, a: Attempt) returns (actions: seq<Action>, s': Store, a': Attempt)
    requires Valid(c.m) && |c.m.blocks| == BlockCount(c.m.size) && c.disk.Partial?
    requires t.receiver.AwaitBlock? && t.receiver.index <= |c.m.blocks| && OnDisk(c, t.receiver, s, a)
    requires Session.ReceiverTurn(c, t).Some? && !Session.ReceiverTurn(c, t).value.receiver.ReceiverFailed?
    ensures Solo(c.h, s, a, actions, s', a') && OnDisk(c, Session.ReceiverTurn(c, t).value.receiver, s', a')
  {
    hide Valid, BlockCount, Length, Splice, Session.Wanted, Do, PartName;
    var r := t.receiver;
    if r.index == |c.m.blocks| { return [], s, a; }
    a' := a.(phase := Receiving(r.index + 1));
    if a.wanted[r.index] == 0 {
      SkipOne(c.h, s, a, a');
      SoloOne(c.h, s, a, SkipBlock, s, a');
      return [SkipBlock], s, a';
    }
    var mixed := Splice(r.content, c.m.size, r.index, r.got);
    actions := WriteOne(c.h, s, a, a', r.got, mixed);
    s' := s.(data := s.data[a.part := mixed]);
  }

  /** The end of the stream and the whole-file check are the attempt's second read and its publication. */
  lemma EndOnDisk(c: Session.Setup, t: Session.State, s: Store, a: Attempt, link: bool) returns (actions: seq<Action>, s': Store, a': Attempt)
    requires Valid(c.m) && |c.m.blocks| == BlockCount(c.m.size) && c.disk.Partial?
    requires t.receiver.AwaitEnd? && OnDisk(c, t.receiver, s, a)
    requires Session.ReceiverTurn(c, t).Some? && !Session.ReceiverTurn(c, t).value.receiver.ReceiverFailed?
    ensures Solo(c.h, s, a, actions, s', a') && OnDisk(c, Session.ReceiverTurn(c, t).value.receiver, s', a')
  {
    hide Valid, BlockCount, Session.Wanted, PartName;
    ValidDigest(c.m);
    NamesApart(c.m.digest, c.m.digest);
    actions, s' := PublishAll(c.h, s, a, t.receiver.content, link);
    a' := a.(phase := Published);
  }

  /** The receipt ends the attempt and leaves the directory alone. */
  lemma ConfirmOnDisk(c: Session.Setup, t: Session.State, s: Store, a: Attempt) returns (move: Move)
    requires |c.m.blocks| == BlockCount(c.m.size) && c.disk.Partial? && t.receiver.Confirming? && OnDisk(c, t.receiver, s, a)
    requires Session.ReceiverTurn(c, t).Some? && !Session.ReceiverTurn(c, t).value.receiver.ReceiverFailed?
    ensures Do(c.h, s, a, Reply) == Some(move) && move.store == s
    ensures OnDisk(c, Session.ReceiverTurn(c, t).value.receiver, move.store, move.attempt)
  {
    hide Session.ToAnswer, Session.Wanted, BlockCount, PartName, Do;
    Case(c.h, s, a, Reply);
    move := Do(c.h, s, a, Reply).value;
  }

  /** Reading bytes off the stream leaves the directory as it is. */
  lemma ReadOnDisk(c: Session.Setup, t: Session.State, n: nat, s: Store, a: Attempt)
    requires |c.m.blocks| == BlockCount(c.m.size) && c.disk.Partial? && OnDisk(c, t.receiver, s, a)
    requires Session.ReceiverRead(c, t, n).Some?
    ensures OnDisk(c, Session.ReceiverRead(c, t, n).value.receiver, s, a)
  {
    hide Session.Wanted, BlockCount, Length, HoldsPart, Frames.Needed;
  }

  /**
   A published content of the session is, under the digest's name, what the directory holds: the
   simulation carries every step up to the receipt.
   */
  lemma TurnOnDisk(c: Session.Setup, t: Session.State, s: Store, a: Attempt, link: bool)
    returns (actions: seq<Action>, s': Store, a': Attempt)
    requires Session.Sound(c) && Session.Inv(c, t) && |c.m.blocks| == BlockCount(c.m.size) && c.disk.Partial?
    requires OnDisk(c, t.receiver, s, a) && !t.receiver.Confirming? && !t.receiver.ReceiverOk?
    requires Session.ReceiverTurn(c, t).Some? && !Session.ReceiverTurn(c, t).value.receiver.ReceiverFailed?
    ensures Solo(c.h, s, a, actions, s', a')
    ensures OnDisk(c, Session.ReceiverTurn(c, t).value.receiver, s', a')
    ensures Session.Published(Session.ReceiverTurn(c, t).value.receiver).Some? ==>
      s'.Content(c.m.digest) == Session.Published(Session.ReceiverTurn(c, t).value.receiver)
  {
    hide Valid, BlockCount, Session.Wanted, Session.Text, Session.SenderOkay, Solo, Session.Sound, HoldsPart;
    Session.SoundParse(c);
    match t.receiver
    case Answering =>
      AnswerOnDisk(c, t, s, a);
      actions, s', a' := [], s, a;
      NoActions(c.h, s, a);
    case AwaitBlock(_, _, _) => actions, s', a' := BlockOnDisk(c, t, s, a);
    case AwaitEnd(_) => actions, s', a' := EndOnDisk(c, t, s, a, link);
  }

  lemma NoActions(h: Hasher, s: Store, a: Attempt)
    ensures Solo(h, s, a, [], s, a)
  {
  }
}
