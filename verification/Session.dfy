/**
 Sender and receiver composed over a bidirectional stream with bounded buffers. Each side moves any
 positive number of bytes at a time, in any order, and may be cut off at any point. A side that stops
 closes its direction, and the other side's writes then fail.
 */
module Session {
  import opened Common
  import opened Endian
  import opened Frames
  import opened Manifests
  import opened Receiver
  import Sender

  /** What the receiver finds on its disk: a completed file, or a partial one (perhaps empty). */
  datatype Disk = Complete(content: Bytes) | Partial(part: Bytes)

  /**
   One transfer: the prehashed source, its manifest, the decoder of offers, what the source yields when
   it is read again; the receiver's disk, its quota, whether another attempt holds the digest's lock, the
   free space; and the two buffer capacities.
   */
  datatype Setup = Setup(
    h: Hasher, source: Bytes, m: Manifest, parse: Bytes -> Option<Manifest>,
    reader: Sender.Reader, disk: Disk, quota: nat, locked: bool, space: nat,
    room: nat, roomBack: nat)

  /** The offer as it goes over the wire: the manifest's JSON text in UTF-8. */
  function Text(c: Setup): Bytes {
    Utf8(Json(c.m))
  }

  ghost predicate Sound(c: Setup) {
    && Valid(c.m) && Describes(c.h, c.m, c.source)
    && c.parse(Text(c)) == Some(c.m)
    && c.room > 0 && c.roomBack > 0
  }

  /** The receipt is the digest itself. */
  function Receipt(digest: string): Bytes {
    Utf8(digest)
  }

  // The two sides.

  datatype SenderState =
    | Offering                      // writing the framed manifest
    | AwaitMap(got: Bytes)          // reading the framed resume map
    | Paying(wanted: seq<nat>)      // writing the requested blocks
    | AwaitReceipt(wanted: seq<nat>, got: Bytes)
    | SenderOk
    | SenderFailed

  datatype ReceiverState =
    | AwaitOffer(got: Bytes)
    | Answering                     // writing the framed resume map
    | AwaitBlock(index: nat, got: Bytes, content: Bytes)
    | AwaitEnd(content: Bytes)      // all blocks in, expecting the end of the stream
    | Confirming(published: Bytes)  // published; writing the receipt
    | ReceiverOk(published: Bytes)
    | ReceiverFailed(kept: Option<Bytes>) // with the published content, if it got that far

  datatype Wire = Wire(written: Bytes, taken: nat, ended: bool)

  datatype State = State(sender: SenderState, receiver: ReceiverState, forth: Wire, back: Wire)

  const Initial := State(Offering, AwaitOffer([]), Wire([], 0, false), Wire([], 0, false))

  /** The resume map the receiver answers with. */
  function Wanted(c: Setup): (w: seq<nat>)
    requires |c.m.blocks| == BlockCount(c.m.size)
    ensures |w| == |c.m.blocks| && forall i :: 0 <= i < |w| ==> w[i] <= 1
  {
    match c.disk
    case Complete(_) => Zeroes(|c.m.blocks|)
    case Partial(part) => Missing(c.h, part, c.m)
  }

  function OfferFrame(c: Setup): Bytes {
    Frame(Text(c))
  }

  function MapFrame(c: Setup): Bytes
    requires |c.m.blocks| == BlockCount(c.m.size)
  {
    Frame(Wanted(c))
  }

  function Plan(c: Setup): Sender.Sent
    requires |c.m.blocks| == BlockCount(c.m.size)
  {
    Sender.Serial(c.h, c.m, Wanted(c), c.reader, 0)
  }

  function Available(w: Wire): int {
    |w.written| - w.taken
  }

  function Write(w: Wire, bytes: Bytes): Wire {
    w.(written := w.written + bytes)
  }

  function Stopped(s: SenderState): bool {
    s.SenderOk? || s.SenderFailed?
  }

  function Closed(r: ReceiverState): bool {
    r.ReceiverOk? || r.ReceiverFailed?
  }

  datatype Event =
    | SenderWrites(n: nat) | SenderReads(n: nat) | SenderTurns | SenderDies
    | ReceiverWrites(n: nat) | ReceiverReads(n: nat) | ReceiverTurns | ReceiverDies

  /** The bytes the sender has still to write in its present state. */
  function ToWrite(c: Setup, s: State): Bytes
    requires |c.m.blocks| == BlockCount(c.m.size)
  {
    var all := match s.sender
      case Offering => OfferFrame(c)
      case Paying(_) => OfferFrame(c) + Plan(c).bytes
      case _ => s.forth.written;
    if |s.forth.written| <= |all| then all[|s.forth.written|..] else []
  }

  function ToAnswer(c: Setup, s: State): Bytes
    requires |c.m.blocks| == BlockCount(c.m.size)
  {
    var all := match s.receiver
      case Answering => MapFrame(c)
      case Confirming(_) => MapFrame(c) + Receipt(c.m.digest)
      case _ => s.back.written;
    if |s.back.written| <= |all| then all[|s.back.written|..] else []
  }

  function FailSender(s: State): State {
    s.(sender := SenderFailed, forth := s.forth.(ended := true))
  }

  function FailReceiver(s: State): State {
    var kept := if s.receiver.Confirming? then Some(s.receiver.published) else None;
    s.(receiver := ReceiverFailed(kept), back := s.back.(ended := true))
  }

  /** Taking n bytes off a wire. */
  function Taken(w: Wire, n: nat): (Bytes, Wire)
    requires w.taken + n <= |w.written|
  {
    (w.written[w.taken..w.taken + n], w.(taken := w.taken + n))
  }

  /** A turn of the sender: a decision without moving bytes; None when it has to wait. */
  function SenderTurn(c: Setup, s: State): Option<State>
    requires |c.m.blocks| == BlockCount(c.m.size)
  {
    match s.sender
    case Offering =>
      if ToWrite(c, s) == [] then Some(s.(sender := AwaitMap([])))
      else if Closed(s.receiver) then Some(FailSender(s))
      else None
    case AwaitMap(got) =>
      if Needed(got) <= 0 then
        if |got| < 4 || |got[4..]| > MAX_BLOCKS || |got[4..]| != |c.m.blocks| then Some(FailSender(s))
        else if exists i :: 0 <= i < |got[4..]| && got[4..][i] > 1 then Some(FailSender(s))
        else Some(s.(sender := Paying(got[4..])))
      else if Available(s.back) == 0 && s.back.ended then Some(FailSender(s))
      else None
    case Paying(wanted) =>
      if ToWrite(c, s) == [] then
        if Plan(c).error.Some? then Some(FailSender(s))
        else Some(s.(sender := AwaitReceipt(wanted, []), forth := s.forth.(ended := true)))
      else if Closed(s.receiver) then Some(FailSender(s))
      else None
    case AwaitReceipt(wanted, got) =>
      if |got| > 64 then Some(FailSender(s))
      else if Available(s.back) == 0 && s.back.ended then
        if got == Receipt(c.m.digest) then Some(s.(sender := SenderOk)) else Some(FailSender(s))
      else None
    case SenderOk => None
    case SenderFailed => None
  }

  function SenderRead(s: State, n: nat): Option<State> {
    if n == 0 || s.back.taken + n > |s.back.written| then None
    else
      var (bytes, back) := Taken(s.back, n);
      match s.sender
      case AwaitMap(got) => if n <= Needed(got) then Some(s.(sender := AwaitMap(got + bytes), back := back)) else None
      case AwaitReceipt(wanted, got) =>
        if |got| <= 64 then Some(s.(sender := AwaitReceipt(wanted, got + bytes), back := back)) else None
      case _ => None
  }

  /**
   After the offer is decoded: validation, consent (quota, lock, space) and the disk decide. The
   decoded manifest is always the one in the setup, which the later states read.
   */
  function Decide(c: Setup, s: State, m: Manifest): State
    requires |c.m.blocks| == BlockCount(c.m.size)
  {
    if m != c.m || !Valid(m) || m.size > c.quota || c.locked then FailReceiver(s)
    else
      match c.disk
      case Complete(content) =>
        if |content| == m.size && c.h(content) == m.digest then s.(receiver := Answering) else FailReceiver(s)
      case Partial(part) =>
        if Sum(Selected(m.size, Missing(c.h, part, m), 1)) <= c.space then s.(receiver := Answering) else FailReceiver(s)
  }

  function ReceiverTurn(c: Setup, s: State): Option<State>
    requires |c.m.blocks| == BlockCount(c.m.size)
  {
    match s.receiver
    case AwaitOffer(got) =>
      if Needed(got) <= 0 then
        if |got| < 4 || |got[4..]| > MAX_MANIFEST || c.parse(got[4..]).None? then Some(FailReceiver(s))
        else Some(Decide(c, s, c.parse(got[4..]).value))
      else if Available(s.forth) == 0 && s.forth.ended then Some(FailReceiver(s))
      else None
    case Answering =>
      if ToAnswer(c, s) == [] then
        match c.disk
        case Complete(content) => Some(s.(receiver := AwaitEnd(content)))
        case Partial(part) => Some(s.(receiver := AwaitBlock(0, [], Resize(part, c.m.size))))
      else if Stopped(s.sender) then Some(FailReceiver(s))
      else None
    case AwaitBlock(index, got, content) =>
      if index >= |c.m.blocks| then Some(s.(receiver := AwaitEnd(content)))
      else if Wanted(c)[index] == 0 then Some(s.(receiver := AwaitBlock(index + 1, [], content)))
      else if |got| == Length(c.m.size, index) then
        if |content| != c.m.size || c.h(got) != c.m.blocks[index] then Some(FailReceiver(s))
        else Some(s.(receiver := AwaitBlock(index + 1, [], Splice(content, c.m.size, index, got))))
      else if Available(s.forth) == 0 && s.forth.ended then Some(FailReceiver(s))
      else None
    case AwaitEnd(content) =>
      if Available(s.forth) > 0 then Some(FailReceiver(s))
      else if !s.forth.ended then None
      else if c.h(content) != c.m.digest then Some(FailReceiver(s))
      else Some(s.(receiver := Confirming(content)))
    case Confirming(published) =>
      if ToAnswer(c, s) == [] then Some(s.(receiver := ReceiverOk(published), back := s.back.(ended := true)))
      else if Stopped(s.sender) then Some(FailReceiver(s))
      else None
    case ReceiverOk(_) => None
    case ReceiverFailed(_) => None
  }

  function ReceiverRead(c: Setup, s: State, n: nat): Option<State>
    requires |c.m.blocks| == BlockCount(c.m.size)
  {
    if n == 0 || s.forth.taken + n > |s.forth.written| then None
    else
      var (bytes, forth) := Taken(s.forth, n);
      match s.receiver
      case AwaitOffer(got) => if n <= Needed(got) then Some(s.(receiver := AwaitOffer(got + bytes), forth := forth)) else None
      case AwaitBlock(index, got, content) =>
        if index < |c.m.blocks| && Wanted(c)[index] == 1 && |got| + n <= Length(c.m.size, index)
        then Some(s.(receiver := AwaitBlock(index, got + bytes, content), forth := forth)) else None
      case _ => None
  }

  function Next(c: Setup, s: State, e: Event): Option<State>
    requires |c.m.blocks| == BlockCount(c.m.size)
  {
    match e
    case SenderWrites(n) =>
      if n == 0 || n > |ToWrite(c, s)| || Available(s.forth) + n > c.room then None
      else Some(s.(forth := Write(s.forth, ToWrite(c, s)[..n])))
    case ReceiverWrites(n) =>
      if n == 0 || n > |ToAnswer(c, s)| || Available(s.back) + n > c.roomBack then None
      else Some(s.(back := Write(s.back, ToAnswer(c, s)[..n])))
    case SenderReads(n) => SenderRead(s, n)
    case ReceiverReads(n) => ReceiverRead(c, s, n)
    case SenderTurns => SenderTurn(c, s)
    case ReceiverTurns => ReceiverTurn(c, s)
    case SenderDies => if Stopped(s.sender) then None else Some(FailSender(s))
    case ReceiverDies => if Closed(s.receiver) then None else Some(FailReceiver(s))
  }

  // The invariant of every run.

  /** What a side has taken off a wire since position `from`. */
  function Got(w: Wire, from: int): Bytes {
    if 0 <= from <= w.taken <= |w.written| then w.written[from..w.taken] else []
  }

  function ForthScript(c: Setup): Bytes
    requires |c.m.blocks| == BlockCount(c.m.size)
  {
    OfferFrame(c) + Plan(c).bytes
  }

  function BackScript(c: Setup): Bytes
    requires |c.m.blocks| == BlockCount(c.m.size)
  {
    MapFrame(c) + Receipt(c.m.digest)
  }

  /** Payload bytes the receiver has taken when it starts on block `index`. */
  function Consumed(c: Setup, index: nat): nat
    requires |c.m.blocks| == BlockCount(c.m.size) && index <= |c.m.blocks|
  {
    Sum(Selected(c.m.size, Wanted(c), 1)[..index])
  }

  ghost predicate SenderOkay(c: Setup, sender: SenderState, forth: Wire, back: Wire)
    requires |c.m.blocks| == BlockCount(c.m.size)
  {
    match sender
    case Offering => forth.written <= OfferFrame(c) && back.taken == 0 && !forth.ended
    case AwaitMap(got) =>
      forth.written == OfferFrame(c) && got == Got(back, 0) && |got| == back.taken && got <= MapFrame(c) && !forth.ended
    case Paying(wanted) =>
      OfferFrame(c) <= forth.written && wanted == Wanted(c) && back.taken == |MapFrame(c)| && !forth.ended
    case AwaitReceipt(wanted, got) =>
      && forth.written == ForthScript(c) && forth.ended && Plan(c).error.None?
      && back.taken >= |MapFrame(c)| && got == Got(back, |MapFrame(c)|)
    case SenderOk =>
      && forth.written == ForthScript(c) && forth.ended && Plan(c).error.None?
      && back.written == BackScript(c) && back.ended
    case SenderFailed => forth.ended
  }

  ghost predicate ReceiverOkay(c: Setup, receiver: ReceiverState, forth: Wire, back: Wire)
    requires |c.m.blocks| == BlockCount(c.m.size)
  {
    match receiver
    case AwaitOffer(got) =>
      back.written == [] && !back.ended && got == Got(forth, 0) && |got| == forth.taken && got <= OfferFrame(c)
    case Answering =>
      && back.written <= MapFrame(c) && !back.ended && forth.taken == |OfferFrame(c)|
      && (c.disk.Complete? ==> |c.disk.content| == c.m.size)
    case AwaitBlock(index, got, content) =>
      && back.written == MapFrame(c) && !back.ended && c.disk.Partial?
      && |content| == c.m.size && index <= |c.m.blocks|
      && (got != [] ==> index < |c.m.blocks| && Wanted(c)[index] == 1)
      && (index < |c.m.blocks| ==> |got| <= Length(c.m.size, index))
      && forth.taken == |OfferFrame(c)| + Consumed(c, index) + |got|
      && got == Got(forth, forth.taken - |got|)
    case AwaitEnd(content) =>
      && back.written == MapFrame(c) && !back.ended && |content| == c.m.size
      && forth.taken == |OfferFrame(c)| + Consumed(c, |c.m.blocks|)
    case Confirming(published) =>
      && MapFrame(c) <= back.written && !back.ended && forth.ended
      && |published| == c.m.size && c.h(published) == c.m.digest
    case ReceiverOk(published) =>
      && back.written == BackScript(c) && back.ended && forth.ended
      && |published| == c.m.size && c.h(published) == c.m.digest
    case ReceiverFailed(kept) =>
      && back.ended
      && (kept.Some? ==> |kept.value| == c.m.size && c.h(kept.value) == c.m.digest)
      && (kept.None? ==> back.written <= MapFrame(c))
  }

  ghost predicate Inv(c: Setup, s: State) {
    && Sound(c)
    && s.forth.taken <= |s.forth.written| && s.back.taken <= |s.back.written|
    && s.forth.written <= ForthScript(c) && s.back.written <= BackScript(c)
    && SenderOkay(c, s.sender, s.forth, s.back)
    && ReceiverOkay(c, s.receiver, s.forth, s.back)
  }

  lemma SoundCount(c: Setup)
    requires Sound(c)
    ensures |c.m.blocks| == BlockCount(c.m.size)
    ensures |OfferFrame(c)| == |Text(c)| + 4 && |MapFrame(c)| == |c.m.blocks| + 4
    ensures |Text(c)| < 0x1_0000_0000 && |Wanted(c)| <= MAX_BLOCKS < 0x1_0000_0000
    ensures |Receipt(c.m.digest)| == 64
    ensures ForthScript(c) == OfferFrame(c) + Plan(c).bytes && BackScript(c) == MapFrame(c) + Receipt(c.m.digest)
  {
    hide Wanted, Utf8Length, Utf8, Json, Control, Sender.Serial, ToBytes;
    DigestAscii(c.m.digest);
    FramesFit(c.m);
  }

  lemma InitialOkay(c: Setup)
    requires Sound(c)
    ensures Inv(c, Initial)
  {
    hide Sound, Text, Wanted, MapFrame, OfferFrame, Plan, BackScript, ForthScript, BlockCount;
    SoundCount(c);
  }

  /** Bytes written on a wire do not disturb what was taken off it. */
  lemma WireGrows(w: Wire, w': Wire, from: int)
    requires w.taken == w'.taken <= |w.written| && w.written <= w'.written
    ensures Got(w', from) == Got(w, from)
  {
  }

  lemma GotMore(w: Wire, n: nat, from: int)
    requires 0 <= from <= w.taken && w.taken + n <= |w.written|
    ensures Got(Taken(w, n).1, from) == Got(w, from) + Taken(w, n).0
  {
  }

  lemma ReceiverUnmoved(c: Setup, r: ReceiverState, forth: Wire, back: Wire, forth': Wire, back': Wire)
    requires |c.m.blocks| == BlockCount(c.m.size)
    requires ReceiverOkay(c, r, forth, back)
    requires forth.taken == forth'.taken <= |forth.written| && forth.written <= forth'.written
    requires forth.ended ==> forth'.ended
    requires back'.written == back.written && back'.ended == back.ended
    ensures ReceiverOkay(c, r, forth', back')
  {
    hide Wanted, MapFrame, OfferFrame, Plan, BackScript, ForthScript, BlockCount, Length, Consumed, Got;
    WireGrows(forth, forth', 0);
    if r.AwaitBlock? { WireGrows(forth, forth', forth.taken - |r.got|); }
  }

  lemma SenderUnmoved(c: Setup, r: SenderState, forth: Wire, back: Wire, forth': Wire, back': Wire)
    requires |c.m.blocks| == BlockCount(c.m.size)
    requires SenderOkay(c, r, forth, back)
    requires back.taken == back'.taken <= |back.written| && back.written <= back'.written
    requires back.ended ==> back'.ended && back'.written == back.written
    requires forth'.written == forth.written && forth'.ended == forth.ended
    ensures SenderOkay(c, r, forth', back')
  {
    hide Wanted, MapFrame, OfferFrame, Plan, BackScript, ForthScript, BlockCount, Length, Consumed, Got;
    WireGrows(back, back', 0);
    WireGrows(back, back', |MapFrame(c)|);
  }

  /** A prefix continued by what is left of a longer prefix. */
  lemma PrefixGrows(written: Bytes, all: Bytes, n: nat)
    requires written <= all && n <= |all[|written|..]|
    ensures written <= written + all[|written|..][..n] <= all
  {
    assert written + all[|written|..][..n] == all[..|written| + n];
  }

  lemma SenderWritesKeeps(c: Setup, s: State, n: nat)
    requires Inv(c, s) && Next(c, s, SenderWrites(n)).Some?
    ensures Inv(c, Next(c, s, SenderWrites(n)).value)
  {
    hide Sound, Text, Wanted, MapFrame, OfferFrame, Plan, BackScript, ForthScript, BlockCount, Length, Consumed, Got, ReceiverOkay;
    SoundCount(c);
    var s' := Next(c, s, SenderWrites(n)).value;
    var all := if s.sender.Offering? then OfferFrame(c) else ForthScript(c);
    assert OfferFrame(c) <= ForthScript(c);
    PrefixGrows(s.forth.written, all, n);
    ReceiverUnmoved(c, s.receiver, s.forth, s.back, s'.forth, s'.back);
  }

  lemma ReceiverWritesKeeps(c: Setup, s: State, n: nat)
    requires Inv(c, s) && Next(c, s, ReceiverWrites(n)).Some?
    ensures Inv(c, Next(c, s, ReceiverWrites(n)).value)
  {
    hide Sound, Text, Wanted, MapFrame, OfferFrame, Plan, BackScript, ForthScript, BlockCount, Length, Consumed, Got, SenderOkay;
    SoundCount(c);
    var s' := Next(c, s, ReceiverWrites(n)).value;
    var all := if s.receiver.Answering? then MapFrame(c) else BackScript(c);
    assert MapFrame(c) <= BackScript(c);
    PrefixGrows(s.back.written, all, n);
    SenderUnmoved(c, s.sender, s.forth, s.back, s'.forth, s'.back);
  }

  /** What has been taken from the start of a script, no further than a first part, is a prefix of it. */
  lemma TakenPrefix(w: Wire, first: Bytes, rest: Bytes)
    requires w.taken <= |w.written| && w.written <= first + rest && w.taken <= |first|
    ensures Got(w, 0) <= first && |Got(w, 0)| == w.taken
  {
  }

  lemma SenderReadsKeeps(c: Setup, s: State, n: nat)
    requires Inv(c, s) && Next(c, s, SenderReads(n)).Some?
    ensures Inv(c, Next(c, s, SenderReads(n)).value)
  {
    hide Sound, Text, Wanted, MapFrame, OfferFrame, Plan, BackScript, ForthScript, BlockCount, Length, Consumed, Got, ReceiverOkay, Needed, Receipt;
    SoundCount(c);
    var s' := Next(c, s, SenderReads(n)).value;
    ReceiverUnmoved(c, s.receiver, s.forth, s.back, s'.forth, s'.back);
    GotMore(s.back, n, 0);
    if s.sender.AwaitMap? {
      MapReading(c, s.sender.got);
      TakenPrefix(s'.back, MapFrame(c), Receipt(c.m.digest));
    } else {
      GotMore(s.back, n, |MapFrame(c)|);
    }
  }

  lemma MapReading(c: Setup, got: Bytes)
    requires Sound(c)
    requires SoundMap(c, got)
    ensures 0 <= Needed(got) <= |MapFrame(c)| - |got|
    ensures Needed(got) == 0 <==> got == MapFrame(c)
    ensures got == MapFrame(c) ==> |got| >= 4 && got[4..] == Wanted(c)
  {
    hide Sound, Text, Wanted;
    SoundCount(c);
    FrameReading(Wanted(c), got);
  }

  ghost predicate SoundMap(c: Setup, got: Bytes)
    requires Sound(c)
  {
    SoundCount(c);
    got <= MapFrame(c)
  }

  lemma OfferReading(c: Setup, got: Bytes)
    requires Sound(c) && got <= OfferFrame(c)
    ensures 0 <= Needed(got) <= |OfferFrame(c)| - |got|
    ensures Needed(got) == 0 <==> got == OfferFrame(c)
    ensures got == OfferFrame(c) ==> |got| >= 4 && got[4..] == Text(c)
  {
    hide Sound, Text, Wanted;
    SoundCount(c);
    FrameReading(Text(c), got);
  }

  lemma OfferReadKeeps(c: Setup, s: State, n: nat)
    requires Inv(c, s) && s.receiver.AwaitOffer? && Next(c, s, ReceiverReads(n)).Some?
    ensures Inv(c, Next(c, s, ReceiverReads(n)).value)
  {
    hide Sound, Text, Wanted, MapFrame, OfferFrame, Plan, BackScript, BlockCount, Length, Consumed, Got, SenderOkay, Needed;
    SoundCount(c);
    var s' := Next(c, s, ReceiverReads(n)).value;
    SenderUnmoved(c, s.sender, s.forth, s.back, s'.forth, s'.back);
    OfferReading(c, s.receiver.got);
    GotMore(s.forth, n, 0);
    TakenPrefix(s'.forth, OfferFrame(c), Plan(c).bytes);
  }

  lemma BlockReadOkay(c: Setup, index: nat, got: Bytes, content: Bytes, forth: Wire, back: Wire, n: nat)
    requires |c.m.blocks| == BlockCount(c.m.size)
    requires ReceiverOkay(c, AwaitBlock(index, got, content), forth, back)
    requires forth.taken + n <= |forth.written|
    requires index < |c.m.blocks| && Wanted(c)[index] == 1 && |got| + n <= Length(c.m.size, index)
    ensures ReceiverOkay(c, AwaitBlock(index, got + Taken(forth, n).0, content), Taken(forth, n).1, back)
  {
    hide Wanted, MapFrame, OfferFrame, BlockCount, Length, Consumed, Got, Taken;
    TakenFacts(forth, n);
    GotMore(forth, n, forth.taken - |got|);
    var got' := got + Taken(forth, n).0;
    assert forth.taken + n - |got'| == forth.taken - |got|;
  }

  lemma TakenFacts(w: Wire, n: nat)
    requires w.taken + n <= |w.written|
    ensures |Taken(w, n).0| == n && Taken(w, n).1 == w.(taken := w.taken + n)
  {
  }

  lemma BlockReadKeeps(c: Setup, s: State, n: nat)
    requires Inv(c, s) && s.receiver.AwaitBlock? && Next(c, s, ReceiverReads(n)).Some?
    ensures Inv(c, Next(c, s, ReceiverReads(n)).value)
  {
    hide Sound, Text, Wanted, MapFrame, OfferFrame, Plan, BackScript, ForthScript, BlockCount, Length, Consumed, SenderOkay, ReceiverOkay, Needed;
    SoundCount(c);
    var r, s' := s.receiver, Next(c, s, ReceiverReads(n)).value;
    SenderUnmoved(c, s.sender, s.forth, s.back, s'.forth, s'.back);
    BlockReadOkay(c, r.index, r.got, r.content, s.forth, s.back, n);
  }

  lemma ReceiverReadsKeeps(c: Setup, s: State, n: nat)
    requires Inv(c, s) && Next(c, s, ReceiverReads(n)).Some?
    ensures Inv(c, Next(c, s, ReceiverReads(n)).value)
  {
    hide Inv, Sound, Text, Wanted, BlockCount, Length, Needed;
    if s.receiver.AwaitOffer? { OfferReadKeeps(c, s, n); } else { BlockReadKeeps(c, s, n); }
  }

  lemma FailSenderKeeps(c: Setup, s: State)
    requires Inv(c, s) && !Stopped(s.sender)
    ensures Inv(c, FailSender(s))
  {
    hide Sound, Text, Wanted, MapFrame, OfferFrame, Plan, BackScript, ForthScript, BlockCount, Length, Consumed, Got, ReceiverOkay;
    SoundCount(c);
    ReceiverUnmoved(c, s.receiver, s.forth, s.back, FailSender(s).forth, s.back);
  }

  lemma FailReceiverKeeps(c: Setup, s: State)
    requires Inv(c, s) && !Closed(s.receiver)
    ensures Inv(c, FailReceiver(s))
  {
    hide Sound, Text, Wanted, MapFrame, OfferFrame, Plan, BackScript, ForthScript, BlockCount, Length, Consumed, Got, SenderOkay, ReceiverOkay;
    SoundCount(c);
    var s' := FailReceiver(s);
    SenderUnmoved(c, s.sender, s.forth, s.back, s'.forth, s'.back);
    FailedOkay(c, s);
  }

  lemma FailedOkay(c: Setup, s: State)
    requires |c.m.blocks| == BlockCount(c.m.size) && ReceiverOkay(c, s.receiver, s.forth, s.back) && !Closed(s.receiver)
    ensures ReceiverOkay(c, FailReceiver(s).receiver, s.forth, FailReceiver(s).back)
  {
    hide Wanted, MapFrame, OfferFrame, Plan, BackScript, BlockCount, Length, Consumed, Got;
    assert [] <= MapFrame(c);
  }

  /** The resume map that arrives is the one that was sent, and the sender accepts it. */
  lemma SenderTurnKeeps(c: Setup, s: State)
    requires Inv(c, s) && SenderTurn(c, s).Some?
    ensures Inv(c, SenderTurn(c, s).value)
  {
    hide Sound, Text, Wanted, MapFrame, OfferFrame, Plan, BackScript, BlockCount, Length, Consumed, Got, ReceiverOkay, Needed, Receipt;
    SoundCount(c);
    var s' := SenderTurn(c, s).value;
    if s' == FailSender(s) {
      FailSenderKeeps(c, s);
    } else {
      ReceiverUnmoved(c, s.receiver, s.forth, s.back, s'.forth, s'.back);
      match s.sender
      case Offering => assert s.forth.written == OfferFrame(c); NothingTaken(c, s.back);
      case AwaitMap(got) => MapReading(c, got);
      case Paying(wanted) => assert s.forth.written == ForthScript(c); JustTaken(s.back);
      case AwaitReceipt(wanted, got) => ReceiptTaken(c, s.back);
    }
  }

  lemma NothingTaken(c: Setup, w: Wire)
    requires |c.m.blocks| == BlockCount(c.m.size) && w.taken == 0
    ensures Got(w, 0) == [] && [] <= MapFrame(c)
  {
  }

  lemma JustTaken(w: Wire)
    requires w.taken <= |w.written|
    ensures Got(w, w.taken) == []
  {
  }

  lemma ReceiptTaken(c: Setup, w: Wire)
    requires |c.m.blocks| == BlockCount(c.m.size)
    requires |MapFrame(c)| <= w.taken == |w.written| && w.written <= BackScript(c)
    requires Got(w, |MapFrame(c)|) == Receipt(c.m.digest)
    ensures w.written == BackScript(c)
  {
    hide MapFrame, Receipt, BlockCount;
  }

  lemma NextBlock(c: Setup, index: nat)
    requires |c.m.blocks| == BlockCount(c.m.size) && index < |c.m.blocks|
    ensures Consumed(c, index + 1) == Consumed(c, index) + (if Wanted(c)[index] == 1 then Length(c.m.size, index) else 0)
    ensures Consumed(c, 0) == 0
  {
    hide Wanted, Length, BlockCount;
    var ls := Selected(c.m.size, Wanted(c), 1);
    assert ls[..index + 1] == ls[..index] + [ls[index]];
    SumSnoc(ls[..index], ls[index]);
  }

  lemma NoneConsumed(c: Setup)
    requires |c.m.blocks| == BlockCount(c.m.size)
    ensures Consumed(c, 0) == 0
  {
    hide Wanted, BlockCount;
  }

  lemma DecideKeeps(c: Setup, s: State)
    requires Inv(c, s) && s.receiver.AwaitOffer? && s.receiver.got == OfferFrame(c)
    ensures Inv(c, Decide(c, s, c.m))
  {
    hide Sound, Text, Wanted, MapFrame, OfferFrame, Plan, BackScript, ForthScript, BlockCount, Length, Consumed, Got, SenderOkay, Valid;
    SoundCount(c);
    FailReceiverKeeps(c, s);
    assert [] <= MapFrame(c);
  }

  lemma BlockTurnKeeps(c: Setup, s: State)
    requires Inv(c, s) && s.receiver.AwaitBlock? && ReceiverTurn(c, s).Some?
    ensures Inv(c, ReceiverTurn(c, s).value)
  {
    hide Sound, Text, Wanted, MapFrame, OfferFrame, Plan, BackScript, ForthScript, BlockCount, Length, Consumed, Got, SenderOkay, Valid, Splice,
      Needed, ToAnswer, Decide, Resize, Receipt, Missing, Selected, Sum;
    SoundCount(c);
    FailReceiverKeeps(c, s);
    if s.receiver.index < |c.m.blocks| {
      NextBlock(c, s.receiver.index);
    }
    JustTaken(s.forth);
  }

  lemma OfferTurnKeeps(c: Setup, s: State)
    requires Inv(c, s) && s.receiver.AwaitOffer? && ReceiverTurn(c, s).Some?
    ensures Inv(c, ReceiverTurn(c, s).value)
  {
    hide Sound, Text, Wanted, MapFrame, OfferFrame, Plan, ForthScript, BlockCount, Length, Consumed, Got, SenderOkay, Valid, Needed, Decide;
    SoundCount(c);
    SoundParse(c);
    OfferReading(c, s.receiver.got);
    if Needed(s.receiver.got) <= 0 { DecideKeeps(c, s); } else { FailReceiverKeeps(c, s); }
  }

  lemma AnswerTurnKeeps(c: Setup, s: State)
    requires Inv(c, s) && s.receiver.Answering? && ReceiverTurn(c, s).Some?
    ensures Inv(c, ReceiverTurn(c, s).value)
  {
    hide Sound, Text, Wanted, MapFrame, OfferFrame, Plan, ForthScript, BlockCount, Length, Got, SenderOkay, Consumed, Resize;
    SoundCount(c);
    FailReceiverKeeps(c, s);
    NoneConsumed(c);
    JustTaken(s.forth);
    assert c.disk.Complete? ==> Consumed(c, |c.m.blocks|) == 0 by {
      if c.disk.Complete? { NothingSelected(c, |c.m.blocks|); }
    }
  }

  /** A completed file asks for no block. */
  lemma {:induction false} NothingSelected(c: Setup, k: nat)
    requires |c.m.blocks| == BlockCount(c.m.size) && k <= |c.m.blocks| && c.disk.Complete?
    ensures Consumed(c, k) == 0
  {
    hide BlockCount, Length, Consumed;
    NoneConsumed(c);
    if k > 0 {
      NothingSelected(c, k - 1);
      NextBlock(c, k - 1);
    }
  }

  lemma EndTurnKeeps(c: Setup, s: State)
    requires Inv(c, s) && s.receiver.AwaitEnd? && ReceiverTurn(c, s).Some?
    ensures Inv(c, ReceiverTurn(c, s).value)
  {
    hide Sound, Text, Wanted, MapFrame, OfferFrame, Plan, ForthScript, BackScript, BlockCount, Length, Got, SenderOkay, Consumed, Receipt;
    SoundCount(c);
    FailReceiverKeeps(c, s);
  }

  lemma ConfirmTurnKeeps(c: Setup, s: State)
    requires Inv(c, s) && s.receiver.Confirming? && ReceiverTurn(c, s).Some?
    ensures Inv(c, ReceiverTurn(c, s).value)
  {
    hide Sound, Text, Wanted, MapFrame, OfferFrame, Plan, ForthScript, BlockCount, Length, Got, SenderOkay, Consumed, Receipt;
    SoundCount(c);
    FailReceiverKeeps(c, s);
    var s' := ReceiverTurn(c, s).value;
    assert s'.receiver.ReceiverOk? ==> s.back.written == BackScript(c);
    SenderUnmoved(c, s.sender, s.forth, s.back, s'.forth, s'.back);
  }

  lemma ReceiverTurnKeeps(c: Setup, s: State)
    requires Inv(c, s) && ReceiverTurn(c, s).Some?
    ensures Inv(c, ReceiverTurn(c, s).value)
  {
    hide Inv, ReceiverOkay, SenderOkay, Sound, Text;
    match s.receiver
    case AwaitOffer(_) => OfferTurnKeeps(c, s);
    case Answering => AnswerTurnKeeps(c, s);
    case AwaitBlock(_, _, _) => BlockTurnKeeps(c, s);
    case AwaitEnd(_) => EndTurnKeeps(c, s);
    case Confirming(_) => ConfirmTurnKeeps(c, s);
    case ReceiverOk(_) =>
    case ReceiverFailed(_) =>
  }

  lemma SoundParse(c: Setup)
    requires Sound(c)
    ensures c.parse(Text(c)) == Some(c.m) && Valid(c.m) && |Text(c)| <= MAX_MANIFEST && c.room > 0 && c.roomBack > 0
    ensures Describes(c.h, c.m, c.source)
  {
    hide Valid, Describes, Utf8, Json;
    FramesFit(c.m);
  }

  lemma StepKeeps(c: Setup, s: State, e: Event)
    requires Sound(c) && Inv(c, s) && SoundNext(c, s, e).Some?
    ensures Inv(c, SoundNext(c, s, e).value)
  {
    hide Inv, ReceiverOkay, SenderOkay, Sound, Text, SenderTurn, ReceiverTurn, SenderRead, ReceiverRead, ToWrite, ToAnswer;
    SoundCount(c);
    match e
    case SenderWrites(n) => SenderWritesKeeps(c, s, n);
    case SenderReads(n) => SenderReadsKeeps(c, s, n);
    case SenderTurns => SenderTurnKeeps(c, s);
    case SenderDies => FailSenderKeeps(c, s);
    case ReceiverWrites(n) => ReceiverWritesKeeps(c, s, n);
    case ReceiverReads(n) => ReceiverReadsKeeps(c, s, n);
    case ReceiverTurns => ReceiverTurnKeeps(c, s);
    case ReceiverDies => FailReceiverKeeps(c, s);
  }

  ghost function SoundNext(c: Setup, s: State, e: Event): Option<State>
    requires Sound(c)
  {
    SoundCount(c);
    Next(c, s, e)
  }

  /** A run: events one after another from a state to a state. */
  ghost predicate Run(c: Setup, s: State, events: seq<Event>, s': State)
    requires Sound(c)
    decreases |events|
  {
    if events == [] then s' == s
    else SoundNext(c, s, events[0]).Some? && Run(c, SoundNext(c, s, events[0]).value, events[1..], s')
  }

  lemma {:induction false} RunKeeps(c: Setup, s: State, events: seq<Event>, s': State)
    requires Sound(c) && Inv(c, s) && Run(c, s, events, s')
    ensures Inv(c, s')
    decreases |events|
  {
    hide SoundNext, Inv, Sound, Text;
    if events != [] {
      StepKeeps(c, s, events[0]);
      RunKeeps(c, SoundNext(c, s, events[0]).value, events[1..], s');
    }
  }

  /** What the receiver has published under the digest name, if anything. */
  function Published(r: ReceiverState): Option<Bytes> {
    match r
    case Confirming(content) => Some(content)
    case ReceiverOk(content) => Some(content)
    case ReceiverFailed(kept) => kept
    case _ => None
  }

  /**
   End-to-end agreement, in every interleaving and with either side dying at any point: if the
   sender reports success, the receiver holds a published file of the prehashed length and digest
   (so, collisions apart, the prehashed file), also when it had the file already. The receiver
   never publishes anything else.
   */
  lemma Agreement(c: Setup, events: seq<Event>, s: State)
    requires Sound(c) && Run(c, Initial, events, s)
    ensures s.sender.SenderOk? ==> Published(s.receiver).Some?
    ensures Published(s.receiver).Some? ==>
      |Published(s.receiver).value| == c.m.size && c.h(Published(s.receiver).value) == c.m.digest
    ensures Published(s.receiver).Some? && Pinned(c.h, c.source) ==> Published(s.receiver).value == c.source
  {
    hide Sound, Text, Wanted, MapFrame, OfferFrame, Plan, ForthScript, BlockCount, Length, Got, Consumed, Receipt, Run, Pinned;
    InitialOkay(c);
    RunKeeps(c, Initial, events, s);
    SoundCount(c);
    SoundParse(c);
    if Published(s.receiver).Some? && Pinned(c.h, c.source) {
      PinnedSource(c, Published(s.receiver).value);
    }
  }

  lemma PinnedSource(c: Setup, content: Bytes)
    requires Sound(c) && Pinned(c.h, c.source) && |content| == c.m.size && c.h(content) == c.m.digest
    ensures content == c.source
  {
    hide Text, Valid, BlockCount;
  }

  // Consent.

  /** What makes the receiver turn a valid offer down: quota, lock, another file in the place, space. */
  predicate Refused(c: Setup) {
    || c.m.size > c.quota
    || c.locked
    || (c.disk.Complete? && (|c.disk.content| != c.m.size || c.h(c.disk.content) != c.m.digest))
    || (c.disk.Partial? && SpaceNeeded(c) > c.space)
  }

  /** The bytes of the blocks that the partial file lacks. */
  function SpaceNeeded(c: Setup): nat {
    if c.disk.Partial? && |c.m.blocks| == BlockCount(c.m.size)
    then Sum(Selected(c.m.size, Missing(c.h, c.disk.part, c.m), 1)) else 0
  }

  /** The receiver has answered nothing, and the sender has neither a map nor a receipt. */
  predicate Unanswered(s: State) {
    && (s.receiver.AwaitOffer? || s.receiver == ReceiverFailed(None))
    && s.back.written == [] && s.back.taken == 0
    && (s.sender.Offering? || s.sender == AwaitMap([]) || s.sender.SenderFailed?)
  }

  lemma StepUnanswered(c: Setup, s: State, e: Event)
    requires Sound(c) && Refused(c) && Unanswered(s) && SoundNext(c, s, e).Some?
    ensures Unanswered(SoundNext(c, s, e).value)
  {
    hide Sound, Text, Valid, OfferFrame, MapFrame, Plan, BlockCount, Missing, Selected, Receipt;
    SoundCount(c);
    if e.ReceiverTurns? && s.receiver.AwaitOffer? { RefusedTurn(c, s); }
  }

  lemma RefusedTurn(c: Setup, s: State)
    requires |c.m.blocks| == BlockCount(c.m.size) && Refused(c) && s.receiver.AwaitOffer? && ReceiverTurn(c, s).Some?
    ensures ReceiverTurn(c, s).value == FailReceiver(s)
  {
    hide Valid, BlockCount, Missing, Selected, Needed;
  }

  lemma {:induction false} RunUnanswered(c: Setup, s: State, events: seq<Event>, s': State)
    requires Sound(c) && Refused(c) && Unanswered(s) && Run(c, s, events, s')
    ensures Unanswered(s')
    decreases |events|
  {
    hide SoundNext, Sound, Text, Refused, Unanswered;
    if events != [] {
      StepUnanswered(c, s, events[0]);
      RunUnanswered(c, SoundNext(c, s, events[0]).value, events[1..], s');
    }
  }

  /**
   Without consent nothing happens, in every run: an offer over the quota, locked, without the space
   for its missing blocks, or whose place is taken by a file of another size or digest, is never
   answered by a byte, never published and never reported as sent.
   */
  lemma NoConsentNoTransfer(c: Setup, events: seq<Event>, s: State)
    requires Sound(c) && Run(c, Initial, events, s)
    requires
      || c.m.size > c.quota
      || c.locked
      || (c.disk.Complete? && (|c.disk.content| != c.m.size || c.h(c.disk.content) != c.m.digest))
      || (c.disk.Partial? && SpaceNeeded(c) > c.space)
    ensures Published(s.receiver).None? && s.back.written == [] && !s.sender.SenderOk? && !s.sender.Paying?
  {
    hide Sound, Text, Run;
    RunUnanswered(c, Initial, events, s);
  }

  /** When the whole offer is in, the receiver answers exactly when nothing of that is the case. */
  lemma ConsentExactly(c: Setup, events: seq<Event>, s: State)
    requires Sound(c) && Run(c, Initial, events, s)
    requires s.receiver.AwaitOffer? && s.receiver.got == SoundOffer(c)
    ensures SoundNext(c, s, ReceiverTurns).Some?
    ensures SoundNext(c, s, ReceiverTurns).value.receiver.Answering? <==> !Refused(c)
  {
    hide Sound, Text, Run, OfferFrame, Needed, Valid, BlockCount, Missing, Selected;
    SoundCount(c);
    SoundParse(c);
    OfferReading(c, s.receiver.got);
  }

  // Decisions about frames that the other side would never send.

  /** Of all framed maps the sender takes exactly those with one entry for each block, each 0 or 1. */
  lemma AnyMap(c: Setup, s: State, wanted: Bytes)
    requires |c.m.blocks| == BlockCount(c.m.size) && |c.m.blocks| <= 262144
    requires |wanted| < 0x1_0000_0000 && s.sender == AwaitMap(Frame(wanted))
    ensures SenderTurn(c, s).Some?
    ensures SenderTurn(c, s).value.sender.Paying? <==> |wanted| == |c.m.blocks| && forall i :: 0 <= i < |wanted| ==> wanted[i] <= 1
    ensures SenderTurn(c, s).value.sender.Paying? ==> SenderTurn(c, s).value == s.(sender := Paying(wanted))
    ensures !SenderTurn(c, s).value.sender.Paying? ==> SenderTurn(c, s).value == FailSender(s)
  {
    hide BlockCount, ToWrite, Plan, Receipt, Needed, Frame;
    FrameReading(wanted, Frame(wanted));
    FrameLength(wanted);
    assert Frame(wanted)[4..] == wanted;
  }

  lemma FrameLength(bytes: Bytes)
    ensures |Frame(bytes)| == 4 + |bytes|
  {
  }

  /** Of all bytes up to the end of the stream only the digest itself is taken for a receipt. */
  lemma AnyReceipt(c: Setup, s: State)
    requires |c.m.blocks| == BlockCount(c.m.size) && ValidHash(c.m.digest)
    requires s.sender.AwaitReceipt? && Available(s.back) == 0 && s.back.ended
    ensures SenderTurn(c, s).Some?
    ensures SenderTurn(c, s).value.sender.SenderOk? <==> s.sender.got == Utf8(c.m.digest)
    ensures !SenderTurn(c, s).value.sender.SenderOk? ==> SenderTurn(c, s).value == FailSender(s)
  {
    hide BlockCount, ToWrite, Plan, Needed, Utf8, ValidHash;
    DigestAscii(c.m.digest);
  }

  /** Of all framed offers the receiver answers exactly those within the limit that decode to a valid, welcome manifest. */
  lemma AnyOffer(c: Setup, s: State, text: Bytes)
    requires |c.m.blocks| == BlockCount(c.m.size)
    requires |text| < 0x1_0000_0000 && s.receiver == AwaitOffer(Frame(text))
    ensures ReceiverTurn(c, s).Some?
    ensures ReceiverTurn(c, s).value.receiver.Answering? <==>
      |text| <= 24 * 1024 * 1024 && c.parse(text) == Some(c.m) && Valid(c.m) && !Refused(c)
    ensures !ReceiverTurn(c, s).value.receiver.Answering? ==> ReceiverTurn(c, s).value == FailReceiver(s)
  {
    hide BlockCount, ToAnswer, Needed, Frame, Valid, Missing, Selected;
    FrameReading(text, Frame(text));
    FrameLength(text);
    assert Frame(text)[4..] == text;
  }

  // The two sides never wait on each other in a cycle.

  /** While the offer is on its way, the receiver reads or decides. */
  lemma OfferGoesOn(c: Setup, s: State) returns (e: Event)
    requires Sound(c) && Inv(c, s) && s.receiver.AwaitOffer?
    requires SoundOffer(c) <= s.forth.written || Available(s.forth) > 0 || s.forth.ended
    ensures e in {ReceiverTurns, ReceiverReads(1)} && SoundNext(c, s, e).Some?
  {
    hide Sound, Text, Wanted, MapFrame, OfferFrame, Plan, ForthScript, BackScript, BlockCount, Length, Got, Consumed, Receipt, Needed, Decide, Splice,
      ToWrite, ToAnswer, SenderOkay;
    SoundCount(c);
    SoundParse(c);
    OfferReading(c, s.receiver.got);
    e := if Needed(s.receiver.got) <= 0 || Available(s.forth) == 0 then ReceiverTurns else ReceiverReads(1);
  }

  ghost function SoundOffer(c: Setup): Bytes
    requires Sound(c)
  {
    SoundCount(c);
    OfferFrame(c)
  }

  lemma BlockGoesOn(c: Setup, s: State) returns (e: Event)
    requires Sound(c) && Inv(c, s) && s.receiver.AwaitBlock? && (Available(s.forth) > 0 || s.forth.ended)
    ensures e in {ReceiverTurns, ReceiverReads(1)} && SoundNext(c, s, e).Some?
  {
    hide Sound, Text, Wanted, MapFrame, OfferFrame, Plan, ForthScript, BackScript, BlockCount, Length, Got, Consumed, Splice, SenderOkay;
    SoundCount(c);
    var r := s.receiver;
    e := if r.index >= |c.m.blocks| || Wanted(c)[r.index] == 0 || |r.got| == Length(c.m.size, r.index) || Available(s.forth) == 0
         then ReceiverTurns else ReceiverReads(1);
  }

  /** If the receiver still runs and the sender has stopped, the receiver can go on. */
  lemma ReceiverGoesOn(c: Setup, s: State) returns (e: Event)
    requires Sound(c) && Inv(c, s) && !Closed(s.receiver)
    requires Stopped(s.sender) || s.sender.AwaitReceipt? || Available(s.forth) > 0
    requires s.receiver.Answering? || s.receiver.Confirming? ==> Stopped(s.sender)
    ensures e in {ReceiverTurns, ReceiverReads(1)} && SoundNext(c, s, e).Some?
  {
    hide Sound, Text, Wanted, MapFrame, OfferFrame, Plan, ForthScript, BackScript, BlockCount, Length, Got, Consumed, Receipt, Needed,
      Decide, Splice, Resize, ToAnswer, ToWrite, ReceiverRead;
    SoundCount(c);
    assert Available(s.forth) == 0 ==> s.forth.ended;
    match s.receiver
    case AwaitOffer(_) => e := OfferGoesOn(c, s);
    case Answering => e := ReceiverTurns;
    case AwaitBlock(_, _, _) => e := BlockGoesOn(c, s);
    case AwaitEnd(_) => e := ReceiverTurns;
    case Confirming(_) => e := ReceiverTurns;
  }

  /** Once the receiver has closed its direction, the sender can go on. */
  lemma SenderGoesOn(c: Setup, s: State) returns (e: Event)
    requires Sound(c) && Inv(c, s) && !Stopped(s.sender) && Closed(s.receiver)
    ensures e in {SenderTurns, SenderReads(1)} && SoundNext(c, s, e).Some?
  {
    hide Sound, Text, Wanted, MapFrame, OfferFrame, Plan, ForthScript, BackScript, BlockCount, Length, Got, Consumed, Receipt, Needed,
      ToAnswer, ToWrite;
    SoundCount(c);
    match s.sender
    case Offering => e := SenderTurns;
    case AwaitMap(got) =>
      MapReading(c, got);
      e := if Needed(got) <= 0 || Available(s.back) == 0 then SenderTurns else SenderReads(1);
    case Paying(_) => e := SenderTurns;
    case AwaitReceipt(_, got) =>
      e := if |got| > 64 || Available(s.back) == 0 then SenderTurns else SenderReads(1);
  }

  /** A receiver that is answering can go on as soon as the sender has taken what it wrote. */
  lemma AnswerGoesOn(c: Setup, s: State) returns (e: Event)
    requires Sound(c) && Inv(c, s) && (s.receiver.Answering? || s.receiver.Confirming?)
    requires Available(s.back) == 0 || ToAnswerSound(c, s) == []
    ensures !e.SenderDies? && !e.ReceiverDies? && SoundNext(c, s, e).Some?
  {
    hide Sound, Text, Wanted, MapFrame, OfferFrame, Plan, ForthScript, BackScript, BlockCount, Length, Got, Consumed, Receipt, Resize, ToAnswer,
      ReceiverOkay, SenderOkay;
    SoundCount(c);
    SoundParse(c);
    e := if ToAnswer(c, s) == [] then ReceiverTurns else ReceiverWrites(1);
  }

  ghost function ToAnswerSound(c: Setup, s: State): Bytes
    requires Sound(c)
  {
    SoundCount(c);
    ToAnswer(c, s)
  }

  /** The whole map has been taken only if the whole map was written. */
  lemma MapWritten(c: Setup, s: State)
    requires Sound(c) && Inv(c, s) && s.receiver.Answering?
    requires SoundMapLength(c) <= s.back.taken
    ensures ToAnswerSound(c, s) == []
  {
    hide Sound, Text, Wanted, MapFrame, OfferFrame, Plan, ForthScript, BackScript, BlockCount, Length, Got, Consumed, Receipt, SenderOkay;
    SoundCount(c);
    assert s.back.written == MapFrame(c);
  }

  ghost function SoundMapLength(c: Setup): nat
    requires Sound(c)
  {
    SoundCount(c);
    |MapFrame(c)|
  }

  lemma OfferingGoesOn(c: Setup, s: State) returns (e: Event)
    requires Sound(c) && Inv(c, s) && s.sender.Offering? && !Closed(s.receiver)
    ensures !e.SenderDies? && !e.ReceiverDies? && SoundNext(c, s, e).Some?
  {
    hide Sound, Text, Wanted, MapFrame, OfferFrame, Plan, ForthScript, BackScript, BlockCount, Length, Got, Consumed, Receipt, Needed, Decide, Splice,
      ToWrite, SenderTurn, ReceiverTurn;
    SoundCount(c);
    SoundParse(c);
    if ToWrite(c, s) == [] {
      TurnWhenWritten(c, s);
      e := SenderTurns;
    } else if Available(s.forth) < c.room {
      e := SenderWrites(1);
    } else {
      e := ReceiverGoesOn(c, s);
    }
  }

  lemma TurnWhenWritten(c: Setup, s: State)
    requires Sound(c) && (s.sender.Offering? || s.sender.Paying?)
    requires ToWriteSound(c, s) == []
    ensures SoundNext(c, s, SenderTurns).Some?
  {
    hide Sound, Text, Wanted, MapFrame, OfferFrame, Plan, ToWrite;
    SoundCount(c);
  }

  ghost function ToWriteSound(c: Setup, s: State): Bytes
    requires Sound(c)
  {
    SoundCount(c);
    ToWrite(c, s)
  }

  lemma AwaitMapGoesOn(c: Setup, s: State) returns (e: Event)
    requires Sound(c) && Inv(c, s) && s.sender.AwaitMap? && !Closed(s.receiver)
    ensures !e.SenderDies? && !e.ReceiverDies? && SoundNext(c, s, e).Some?
  {
    hide Sound, Text, Wanted, MapFrame, OfferFrame, Plan, ForthScript, BackScript, BlockCount, Length, Got, Consumed, Receipt, Needed, Decide, Splice,
      ToWrite, ToAnswer, ReceiverTurn, ReceiverRead;
    SoundCount(c);
    SoundParse(c);
    MapReading(c, s.sender.got);
    if Needed(s.sender.got) <= 0 { return SenderTurns; }
    if Available(s.back) > 0 { return SenderReads(1); }
    if s.receiver.Answering? || s.receiver.Confirming? {
      e := AnswerGoesOn(c, s);
    } else {
      e := OfferGoesOn(c, s);
    }
  }

  lemma PayingGoesOn(c: Setup, s: State) returns (e: Event)
    requires Sound(c) && Inv(c, s) && s.sender.Paying? && !Closed(s.receiver)
    ensures !e.SenderDies? && !e.ReceiverDies? && SoundNext(c, s, e).Some?
  {
    hide Sound, Text, Wanted, MapFrame, OfferFrame, Plan, ForthScript, BackScript, BlockCount, Length, Got, Consumed, Receipt, Needed, Decide, Splice,
      ToWrite, ToAnswer, SenderTurn, ReceiverTurn, ReceiverRead;
    SoundCount(c);
    SoundParse(c);
    if ToWrite(c, s) == [] {
      TurnWhenWritten(c, s);
      e := SenderTurns;
    } else if Available(s.forth) < c.room {
      e := SenderWrites(1);
    } else if s.receiver.Answering? {
      MapWritten(c, s);
      e := AnswerGoesOn(c, s);
    } else {
      e := ReceiverGoesOn(c, s);
    }
  }

  lemma AwaitReceiptGoesOn(c: Setup, s: State) returns (e: Event)
    requires Sound(c) && Inv(c, s) && s.sender.AwaitReceipt? && !Closed(s.receiver)
    ensures !e.SenderDies? && !e.ReceiverDies? && SoundNext(c, s, e).Some?
  {
    hide Sound, Text, Wanted, MapFrame, OfferFrame, Plan, ForthScript, BackScript, BlockCount, Length, Got, Consumed, Receipt, Needed, Decide, Splice,
      ToWrite, ToAnswer, ReceiverTurn, ReceiverRead;
    SoundCount(c);
    SoundParse(c);
    if |s.sender.got| > 64 { return SenderTurns; }
    if Available(s.back) > 0 { return SenderReads(1); }
    if s.receiver.Answering? || s.receiver.Confirming? {
      e := AnswerGoesOn(c, s);
    } else {
      e := ReceiverGoesOn(c, s);
    }
  }

  /** No more bytes are on a wire than its buffer holds. */
  predicate Bounded(c: Setup, s: State) {
    0 <= Available(s.forth) <= c.room && 0 <= Available(s.back) <= c.roomBack
  }

  lemma {:induction false} RunBounded(c: Setup, s: State, events: seq<Event>, s': State)
    requires Sound(c) && Bounded(c, s) && Run(c, s, events, s')
    ensures Bounded(c, s')
    decreases |events|
  {
    hide SoundNext, Sound, Text, Bounded;
    if events != [] {
      StepBounded(c, s, events[0]);
      RunBounded(c, SoundNext(c, s, events[0]).value, events[1..], s');
    }
  }

  lemma StepBounded(c: Setup, s: State, e: Event)
    requires Sound(c) && Bounded(c, s) && SoundNext(c, s, e).Some?
    ensures Bounded(c, SoundNext(c, s, e).value)
  {
    hide Sound, Text, Wanted, MapFrame, OfferFrame, Plan, BlockCount, Length, Needed, ToWrite, ToAnswer, Receipt, Decide, Resize, Splice, Valid;
    SoundCount(c);
    hide SenderTurn, ReceiverTurn;
    if e.SenderTurns? { SenderTurnStill(c, s); }
    if e.ReceiverTurns? { ReceiverTurnStill(c, s); }
  }

  /** A decision moves no bytes. */
  lemma SenderTurnStill(c: Setup, s: State)
    requires |c.m.blocks| == BlockCount(c.m.size) && SenderTurn(c, s).Some?
    ensures var s' := SenderTurn(c, s).value;
      s'.back == s.back && s'.forth.written == s.forth.written && s'.forth.taken == s.forth.taken
  {
    hide Wanted, BlockCount, Needed, ToWrite, Plan, Receipt, Available, Closed;
  }

  lemma ReceiverTurnStill(c: Setup, s: State)
    requires |c.m.blocks| == BlockCount(c.m.size) && ReceiverTurn(c, s).Some?
    ensures var s' := ReceiverTurn(c, s).value;
      s'.forth == s.forth && s'.back.written == s.back.written && s'.back.taken == s.back.taken
  {
    hide ReceiverTurn, BlockCount, ReceiverRank;
    Finishes(c, s);
    match s.receiver
    case AwaitOffer(_) => OfferRises(c, s);
    case Answering => AnswerRises(c, s);
    case AwaitBlock(_, _, _) => BlockRises(c, s);
    case AwaitEnd(_) => EndRises(c, s);
    case Confirming(_) => ConfirmRises(c, s);
    case _ =>
  }

  /** In every run neither buffer ever holds more than it has room for. */
  lemma BuffersBounded(c: Setup, events: seq<Event>, s: State)
    requires Sound(c) && Run(c, Initial, events, s)
    ensures 0 <= |s.forth.written| - s.forth.taken <= c.room
    ensures 0 <= |s.back.written| - s.back.taken <= c.roomBack
  {
    hide Sound, Text, Run;
    SoundParse(c);
    RunBounded(c, Initial, events, s);
  }

  /** Either side can be cut off at every point of every run; the other side then keeps what it has. */
  lemma CutAnywhere(c: Setup, s: State)
    requires Sound(c)
    ensures !Stopped(s.sender) ==>
      SoundNext(c, s, SenderDies) == Some(s.(sender := SenderFailed, forth := s.forth.(ended := true)))
    ensures !Closed(s.receiver) ==>
      SoundNext(c, s, ReceiverDies) == Some(s.(receiver := ReceiverFailed(Published(s.receiver)), back := s.back.(ended := true)))
  {
    hide Sound, Text, SenderTurn, ReceiverTurn, SenderRead, ReceiverRead, ToWrite, ToAnswer, MapFrame, OfferFrame, Wanted, BlockCount;
    SoundCount(c);
  }

  /**
   No deadlock: in every reachable state, unless both sides have finished, some step other than
   dying is possible, however small the two buffers are.
   */
  lemma NeverStuck(c: Setup, events: seq<Event>, s: State) returns (e: Event)
    requires Sound(c) && Run(c, Initial, events, s)
    requires !(Stopped(s.sender) && Closed(s.receiver))
    ensures !e.SenderDies? && !e.ReceiverDies? && SoundNext(c, s, e).Some?
  {
    hide Sound, Text, Inv, Run, SoundNext;
    InitialOkay(c);
    RunKeeps(c, Initial, events, s);
    if Closed(s.receiver) {
      e := SenderGoesOn(c, s);
    } else {
      match s.sender
      case Offering => e := OfferingGoesOn(c, s);
      case AwaitMap(_) => e := AwaitMapGoesOn(c, s);
      case Paying(_) => e := PayingGoesOn(c, s);
      case AwaitReceipt(_, _) => e := AwaitReceiptGoesOn(c, s);
      case _ => e := ReceiverGoesOn(c, s);
    }
  }

  // Every run ends.

  function SenderRank(s: SenderState): nat {
    match s
    case Offering => 0
    case AwaitMap(_) => 1
    case Paying(_) => 2
    case AwaitReceipt(_, _) => 3
    case _ => 4
  }

  function ReceiverRank(n: nat, r: ReceiverState): nat {
    match r
    case AwaitOffer(_) => 0
    case Answering => 1
    case AwaitBlock(index, _, _) => 2 + Min(index, n)
    case AwaitEnd(_) => 3 + n
    case Confirming(_) => 4 + n
    case _ => 5 + n
  }

  /** Bytes moved and decisions taken so far. */
  function Progress(c: Setup, s: State): nat {
    |s.forth.written| + s.forth.taken + |s.back.written| + s.back.taken
    + SenderRank(s.sender) + ReceiverRank(|c.m.blocks|, s.receiver)
  }

  function Bound(c: Setup): nat
    requires |c.m.blocks| == BlockCount(c.m.size)
  {
    2 * |ForthScript(c)| + 2 * |BackScript(c)| + 9 + |c.m.blocks|
  }

  lemma MoveProgresses(c: Setup, s: State, e: Event)
    requires Sound(c) && Inv(c, s) && SoundNext(c, s, e).Some?
    requires e.SenderWrites? || e.SenderReads? || e.ReceiverWrites? || e.ReceiverReads?
    ensures Progress(c, SoundNext(c, s, e).value) > Progress(c, s)
  {
    hide Sound, Text, Wanted, MapFrame, OfferFrame, Plan, BlockCount, Length, Needed, ToWrite, ToAnswer, Inv;
    SoundCount(c);
  }

  lemma SenderProgresses(c: Setup, s: State, e: Event)
    requires Sound(c) && Inv(c, s) && SoundNext(c, s, e).Some? && (e.SenderTurns? || e.SenderDies?)
    ensures Progress(c, SoundNext(c, s, e).value) > Progress(c, s)
  {
    hide Sound, Text, Wanted, MapFrame, OfferFrame, Plan, BlockCount, Needed, ToWrite, Receipt, Inv, ReceiverRank;
    SoundCount(c);
  }

  ghost predicate Rises(c: Setup, s: State, s': State) {
    && ReceiverRank(|c.m.blocks|, s'.receiver) > ReceiverRank(|c.m.blocks|, s.receiver)
    && s'.forth == s.forth && s'.sender == s.sender && s'.back.written == s.back.written && s'.back.taken == s.back.taken
  }

  lemma OfferRises(c: Setup, s: State)
    requires |c.m.blocks| == BlockCount(c.m.size) && ReceiverTurn(c, s).Some? && s.receiver.AwaitOffer?
    ensures Rises(c, s, ReceiverTurn(c, s).value)
  {
    hide Wanted, BlockCount, Length, Needed, ToAnswer, Valid, Resize;
  }

  lemma AnswerRises(c: Setup, s: State)
    requires |c.m.blocks| == BlockCount(c.m.size) && ReceiverTurn(c, s).Some? && s.receiver.Answering?
    ensures Rises(c, s, ReceiverTurn(c, s).value)
  {
    hide Wanted, BlockCount, Length, Needed, ToAnswer, Valid, Resize;
  }

  lemma EndRises(c: Setup, s: State)
    requires |c.m.blocks| == BlockCount(c.m.size) && ReceiverTurn(c, s).Some? && s.receiver.AwaitEnd?
    ensures Rises(c, s, ReceiverTurn(c, s).value)
  {
    hide Wanted, BlockCount, Length, Needed, ToAnswer, Valid, Resize;
  }

  lemma ConfirmRises(c: Setup, s: State)
    requires |c.m.blocks| == BlockCount(c.m.size) && ReceiverTurn(c, s).Some? && s.receiver.Confirming?
    ensures Rises(c, s, ReceiverTurn(c, s).value)
  {
    hide Wanted, BlockCount, Length, Needed, ToAnswer, Valid, Resize;
  }

  lemma BlockRises(c: Setup, s: State)
    requires |c.m.blocks| == BlockCount(c.m.size) && ReceiverTurn(c, s).Some? && s.receiver.AwaitBlock?
    ensures Rises(c, s, ReceiverTurn(c, s).value)
  {
    hide Wanted, BlockCount, Length, Splice;
  }

  lemma Finishes(c: Setup, s: State)
    requires |c.m.blocks| == BlockCount(c.m.size)
    ensures !Closed(s.receiver) ==> ReceiverRank(|c.m.blocks|, FailReceiver(s).receiver) > ReceiverRank(|c.m.blocks|, s.receiver)
    ensures Closed(s.receiver) ==> ReceiverTurn(c, s).None?
  {
    hide Wanted, BlockCount, Length, Needed, ToAnswer;
  }

  lemma ReceiverProgresses(c: Setup, s: State, e: Event)
    requires Sound(c) && Inv(c, s) && SoundNext(c, s, e).Some? && (e.ReceiverTurns? || e.ReceiverDies?)
    ensures Progress(c, SoundNext(c, s, e).value) > Progress(c, s)
  {
    hide Sound, Text, Wanted, MapFrame, OfferFrame, Plan, BlockCount, Inv, SenderRank, ReceiverTurn, ReceiverRank;
    SoundCount(c);
    Finishes(c, s);
    if e.ReceiverTurns? {
      match s.receiver
      case AwaitOffer(_) => OfferRises(c, s);
      case Answering => AnswerRises(c, s);
      case AwaitBlock(_, _, _) => BlockRises(c, s);
      case AwaitEnd(_) => EndRises(c, s);
      case Confirming(_) => ConfirmRises(c, s);
      case _ =>
    }
  }

  lemma StepProgresses(c: Setup, s: State, e: Event)
    requires Sound(c) && Inv(c, s) && SoundNext(c, s, e).Some?
    ensures Progress(c, SoundNext(c, s, e).value) > Progress(c, s)
  {
    hide Sound, Text, Inv, SoundNext, Progress;
    match e
    case SenderTurns => SenderProgresses(c, s, e);
    case SenderDies => SenderProgresses(c, s, e);
    case ReceiverTurns => ReceiverProgresses(c, s, e);
    case ReceiverDies => ReceiverProgresses(c, s, e);
    case _ => MoveProgresses(c, s, e);
  }

  lemma {:induction false} RunProgresses(c: Setup, s: State, events: seq<Event>, s': State)
    requires Sound(c) && Inv(c, s) && Run(c, s, events, s')
    ensures Progress(c, s') >= Progress(c, s) + |events|
    decreases |events|
  {
    hide SoundNext, Inv, Sound, Text, Progress;
    if events != [] {
      StepKeeps(c, s, events[0]);
      StepProgresses(c, s, events[0]);
      RunProgresses(c, SoundNext(c, s, events[0]).value, events[1..], s');
    }
  }

  /** Every run is finite, with a bound known beforehand. */
  lemma RunsEnd(c: Setup, events: seq<Event>, s: State)
    requires Sound(c) && Run(c, Initial, events, s)
    requires |c.m.blocks| == BlockCount(c.m.size)
    ensures |events| <= Bound(c)
  {
    hide Sound, Text, ForthScript, BackScript, BlockCount, SenderOkay, ReceiverOkay, Run;
    InitialOkay(c);
    RunKeeps(c, Initial, events, s);
    RunProgresses(c, Initial, events, s);
  }

  // What arrives is what was sent: the unframed payload is cut back into the right blocks.

  /** What is left of the payload at the start of block `index` is what the sender sends from there on. */
  lemma {:induction false} PayloadCut(c: Setup, index: nat)
    requires |c.m.blocks| == BlockCount(c.m.size) && index <= |c.m.blocks|
    requires |Plan(c).bytes| > Consumed(c, index) || Plan(c).error.None?
    ensures |Plan(c).bytes| >= Consumed(c, index)
    ensures Plan(c).bytes[Consumed(c, index)..] == Sender.Serial(c.h, c.m, Wanted(c), c.reader, index).bytes
    ensures Plan(c).error == Sender.Serial(c.h, c.m, Wanted(c), c.reader, index).error
  {
    hide Wanted, BlockCount, Length, Consumed, Sender.Reread, Sender.Serial;
    NoneConsumed(c);
    if index > 0 {
      NextBlock(c, index - 1);
      PayloadCut(c, index - 1);
      Sender.SerialUnfold(c.h, c.m, Wanted(c), c.reader, index - 1);
      assert Wanted(c)[index - 1] <= 1;
    }
  }

  /**
   A whole requested block that lies within the payload is the block the sender read for that
   index, so it always has the digest the manifest promises.
   */
  lemma BlockArrives(c: Setup, index: nat)
    requires |c.m.blocks| == BlockCount(c.m.size) && index < |c.m.blocks| && Wanted(c)[index] == 1
    requires Consumed(c, index) + Length(c.m.size, index) <= |Plan(c).bytes|
    ensures var block := Sender.Reread(c.h, c.m, c.reader, index);
      && block.Ok? && c.h(block.value) == c.m.blocks[index]
      && Plan(c).bytes[Consumed(c, index)..Consumed(c, index) + Length(c.m.size, index)] == block.value
  {
    hide Wanted, BlockCount, Length, Consumed, Sender.Reread, Sender.Serial;
    PayloadCut(c, index);
    Sender.SerialUnfold(c.h, c.m, Wanted(c), c.reader, index);
    var rest := Plan(c).bytes[Consumed(c, index)..];
    assert rest[..Length(c.m.size, index)] == Plan(c).bytes[Consumed(c, index)..Consumed(c, index) + Length(c.m.size, index)];
  }

  /** The payload is never longer than what was requested. */
  lemma PayloadFits(c: Setup)
    requires |c.m.blocks| == BlockCount(c.m.size)
    ensures |Plan(c).bytes| <= Consumed(c, |c.m.blocks|)
    ensures Plan(c).error.None? ==> |Plan(c).bytes| == Consumed(c, |c.m.blocks|)
  {
    hide Wanted, BlockCount, Length, Consumed, Sender.Reread, Sender.Serial;
    Sender.SerialDone(c.h, c.m, Wanted(c), c.reader);
    if |Plan(c).bytes| > Consumed(c, |c.m.blocks|) || Plan(c).error.None? {
      PayloadCut(c, |c.m.blocks|);
    }
  }

  /** A slice of a script after its first part is a slice of the second part. */
  lemma SecondPart(w: Wire, first: Bytes, second: Bytes, from: nat, n: nat)
    requires w.written <= first + second && w.taken <= |w.written| && w.taken == |first| + from + n
    ensures from + n <= |second| && Got(w, w.taken - n) == second[from..from + n]
  {
    var all := first + second;
    assert w.written == all[..|w.written|];
    assert w.written[w.taken - n..w.taken] == all[w.taken - n..w.taken];
    assert all[|first| + from..|first| + from + n] == second[from..from + n];
  }

  /**
   In every run, whatever the source has become and whoever dies: a block the receiver has
   completely taken is the block the sender read for that index and passes the digest check, and
   when all blocks are in, nothing is left on the stream.
   */
  lemma CutRight(c: Setup, events: seq<Event>, s: State)
    requires Sound(c) && |c.m.blocks| == BlockCount(c.m.size) && Run(c, Initial, events, s)
    ensures var r := s.receiver;
      r.AwaitBlock? && r.index < |c.m.blocks| && Wanted(c)[r.index] == 1 && |r.got| == Length(c.m.size, r.index) ==>
        && Sender.Reread(c.h, c.m, c.reader, r.index) == Ok(r.got)
        && c.h(r.got) == c.m.blocks[r.index]
    ensures s.receiver.AwaitEnd? ==> Available(s.forth) == 0
  {
    hide Run, Inv;
    InitialOkay(c);
    RunKeeps(c, Initial, events, s);
    BlockTaken(c, s);
    NothingLeft(c, s);
  }

  lemma BlockTaken(c: Setup, s: State)
    requires Sound(c) && |c.m.blocks| == BlockCount(c.m.size) && Inv(c, s)
    ensures var r := s.receiver;
      r.AwaitBlock? && r.index < |c.m.blocks| && Wanted(c)[r.index] == 1 && |r.got| == Length(c.m.size, r.index) ==>
        && Sender.Reread(c.h, c.m, c.reader, r.index) == Ok(r.got)
        && c.h(r.got) == c.m.blocks[r.index]
  {
    hide Sound, Text, Wanted, MapFrame, OfferFrame, BackScript, BlockCount, Length, Got, Consumed, Receipt, Sender.Reread, Sender.Serial, SenderOkay, Plan;
    var r := s.receiver;
    if r.AwaitBlock? && r.index < |c.m.blocks| && Wanted(c)[r.index] == 1 && |r.got| == Length(c.m.size, r.index) {
      SecondPart(s.forth, OfferFrame(c), Plan(c).bytes, Consumed(c, r.index), |r.got|);
      BlockArrives(c, r.index);
    }
  }

  lemma NothingLeft(c: Setup, s: State)
    requires Sound(c) && |c.m.blocks| == BlockCount(c.m.size) && Inv(c, s)
    ensures s.receiver.AwaitEnd? ==> Available(s.forth) == 0
  {
    hide Sound, Text, Wanted, MapFrame, OfferFrame, BackScript, BlockCount, Length, Got, Consumed, Receipt, Sender.Reread, Sender.Serial, SenderOkay, Plan;
    PayloadFits(c);
  }

  // Success.

  /** Nothing stands in the way: consent, an unchanged readable source, no hash collision. */
  ghost predicate Honest(c: Setup) {
    && Sound(c) && !Refused(c)
    && BlocksPinned(c.h, c.source) && Pinned(c.h, c.source)
    && (forall i: nat :: i < BlockCount(|c.source|) ==> c.reader(i) == Some(Block(c.source, |c.source|, i)))
  }

  /** No side has failed, and what the receiver holds agrees with the source so far. */
  ghost predicate Good(c: Setup, s: State)
    requires Sound(c) && |c.m.blocks| == BlockCount(c.m.size)
  {
    && !s.sender.SenderFailed? && !s.receiver.ReceiverFailed?
    && (s.receiver.AwaitBlock? ==> Partly(c, s.receiver.index, s.receiver.content))
    && (s.receiver.AwaitEnd? ==> c.h(s.receiver.content) == c.m.digest)
  }

  ghost predicate Partly(c: Setup, index: nat, content: Bytes)
    requires Sound(c) && |c.m.blocks| == BlockCount(c.m.size)
  {
    && |content| == |c.source| == c.m.size && index <= |c.m.blocks|
    && Agrees(content, c.source, Wanted(c), index)
  }

  lemma {:induction false} HonestPlan(c: Setup, index: nat)
    requires Honest(c) && |c.m.blocks| == BlockCount(c.m.size) && index <= |c.m.blocks|
    ensures Sender.Serial(c.h, c.m, Wanted(c), c.reader, index).error.None?
    decreases |c.m.blocks| - index
  {
    hide Text, Wanted, Valid, Length, BlockCount, Block;
    if index < |c.m.blocks| {
      HonestPlan(c, index + 1);
      HonestRead(c, index);
    }
  }

  lemma HonestRead(c: Setup, index: nat)
    requires Honest(c) && |c.m.blocks| == BlockCount(c.m.size) && index < |c.m.blocks|
    ensures |c.source| == c.m.size
    ensures Sender.Reread(c.h, c.m, c.reader, index) == Ok(Block(c.source, |c.source|, index))
  {
    hide Text, Wanted, Valid, Length, BlockCount, Block;
  }

  lemma HonestBasics(c: Setup)
    requires Honest(c) && |c.m.blocks| == BlockCount(c.m.size)
    ensures Sound(c) && !Refused(c) && Plan(c).error.None? && Valid(c.m)
    ensures c.disk.Complete? ==> |c.disk.content| == c.m.size && c.h(c.disk.content) == c.m.digest
  {
    hide Text, Wanted, Valid, BlockCount, Sender.Serial;
    HonestPlan(c, 0);
    SoundParse(c);
  }

  lemma {:induction false} ConsumedGrows(c: Setup, index: nat, to: nat)
    requires |c.m.blocks| == BlockCount(c.m.size) && index <= to <= |c.m.blocks|
    ensures Consumed(c, index) <= Consumed(c, to)
  {
    hide Wanted, BlockCount, Length, Consumed;
    if index < to {
      ConsumedGrows(c, index, to - 1);
      NextBlock(c, to - 1);
    }
  }

  lemma MoveGood(c: Setup, s: State, e: Event)
    requires Honest(c) && Sound(c) && |c.m.blocks| == BlockCount(c.m.size) && Inv(c, s) && Good(c, s)
    requires e.SenderWrites? || e.SenderReads? || e.ReceiverWrites? || e.ReceiverReads?
    requires Next(c, s, e).Some?
    ensures Good(c, Next(c, s, e).value)
  {
    hide Honest, Sound, Text, Wanted, BlockCount, Length, Needed, ToWrite, ToAnswer, Inv, Partly;
  }

  lemma SenderTurnGood(c: Setup, s: State)
    requires Honest(c) && Sound(c) && |c.m.blocks| == BlockCount(c.m.size) && Inv(c, s) && Good(c, s)
    requires SenderTurn(c, s).Some?
    ensures Good(c, SenderTurn(c, s).value)
  {
    hide Honest, Sound, Text, Wanted, MapFrame, OfferFrame, Plan, ForthScript, BlockCount, Length, Got, Consumed, Receipt, Needed, ToWrite, Partly, Valid;
    SoundCount(c);
    HonestBasics(c);
    match s.sender
    case AwaitMap(got) => MapReading(c, got);
    case AwaitReceipt(_, got) => ReceiptArrives(c, s.back);
    case _ =>
  }

  lemma ReceiptArrives(c: Setup, w: Wire)
    requires |c.m.blocks| == BlockCount(c.m.size) && |Receipt(c.m.digest)| == 64
    requires |MapFrame(c)| <= w.taken <= |w.written| && w.written <= BackScript(c)
    ensures |Got(w, |MapFrame(c)|)| <= 64
    ensures w.taken == |BackScript(c)| ==> Got(w, |MapFrame(c)|) == Receipt(c.m.digest)
  {
    hide MapFrame, Receipt, BlockCount;
  }

  lemma OfferTurnGood(c: Setup, s: State)
    requires Honest(c) && Sound(c) && |c.m.blocks| == BlockCount(c.m.size) && Inv(c, s) && Good(c, s)
    requires s.receiver.AwaitOffer? && ReceiverTurn(c, s).Some?
    ensures Good(c, ReceiverTurn(c, s).value)
  {
    hide Honest, Sound, Text, Wanted, MapFrame, OfferFrame, Plan, BackScript, BlockCount, Length, Got, Consumed, Receipt, Needed, ToAnswer, Partly, Valid;
    SoundCount(c);
    SoundParse(c);
    HonestBasics(c);
    OfferReading(c, s.receiver.got);
  }

  lemma AnswerTurnGood(c: Setup, s: State)
    requires Honest(c) && Sound(c) && |c.m.blocks| == BlockCount(c.m.size) && Inv(c, s) && Good(c, s)
    requires s.receiver.Answering? && ReceiverTurn(c, s).Some?
    ensures Good(c, ReceiverTurn(c, s).value)
  {
    hide Honest, Sound, Text, MapFrame, OfferFrame, Plan, ForthScript, BlockCount, Length, Got, Consumed, Receipt, Needed, ToAnswer, Partly, Valid, Resize, Missing;
    SoundCount(c);
    HonestBasics(c);
    if c.disk.Partial? { StartsPartly(c); }
  }

  lemma StartsPartly(c: Setup)
    requires Honest(c) && Sound(c) && |c.m.blocks| == BlockCount(c.m.size) && c.disk.Partial?
    ensures Partly(c, 0, Resize(c.disk.part, c.m.size))
  {
    hide Text, BlockCount, Length, Valid, Resize, Missing, Agrees, Pinned, BlocksPinned;
    ScanAgrees(c.h, c.m, c.source, c.disk.part);
  }

  /** The sender does not end its direction in the middle of a requested block. */
  lemma NoEarlyEnd(c: Setup, s: State)
    requires Honest(c) && Sound(c) && |c.m.blocks| == BlockCount(c.m.size) && Inv(c, s) && Good(c, s)
    requires s.receiver.AwaitBlock? && s.receiver.index < |c.m.blocks| && Wanted(c)[s.receiver.index] == 1
    requires |s.receiver.got| < Length(c.m.size, s.receiver.index) && Available(s.forth) == 0
    ensures !s.forth.ended
  {
    hide Honest, Sound, Text, Wanted, MapFrame, OfferFrame, Plan, BackScript, BlockCount, Length, Got, Consumed, Receipt, Partly;
    HonestBasics(c);
    NextBlock(c, s.receiver.index);
    ConsumedGrows(c, s.receiver.index + 1, |c.m.blocks|);
    PayloadFits(c);
  }

  lemma BlockTurnGood(c: Setup, s: State)
    requires Honest(c) && Sound(c) && |c.m.blocks| == BlockCount(c.m.size) && Inv(c, s) && Good(c, s)
    requires s.receiver.AwaitBlock? && ReceiverTurn(c, s).Some?
    ensures Good(c, ReceiverTurn(c, s).value)
  {
    hide Honest, Sound, Text, Wanted, MapFrame, OfferFrame, Plan, ForthScript, BackScript, BlockCount, Length, Got, Consumed, Receipt, Partly,
      Valid, Splice, Sender.Reread, SenderOkay;
    BlockTaken(c, s);
    var r := s.receiver;
    if r.index < |c.m.blocks| {
      HonestRead(c, r.index);
      PartlyGrows(c, r.index, r.content);
      if Wanted(c)[r.index] == 1 && |r.got| < Length(c.m.size, r.index) && Available(s.forth) == 0 { NoEarlyEnd(c, s); }
    } else {
      PartlyDone(c, r.index, r.content);
    }
  }

  lemma PartlyGrows(c: Setup, index: nat, content: Bytes)
    requires Honest(c) && Sound(c) && |c.m.blocks| == BlockCount(c.m.size) && index < |c.m.blocks| && Partly(c, index, content)
    ensures Wanted(c)[index] == 0 ==> Partly(c, index + 1, content)
    ensures |c.source| == c.m.size && Partly(c, index + 1, Splice(content, c.m.size, index, Block(c.source, |c.source|, index)))
  {
    hide Honest, Sound, Text, Wanted, BlockCount, Length, Splice, Agrees, Block;
    if Wanted(c)[index] == 0 { SkipAgrees(content, c.source, Wanted(c), index); }
    WriteAgrees(content, c.source, Wanted(c), index);
  }

  lemma PartlyDone(c: Setup, index: nat, content: Bytes)
    requires Sound(c) && |c.m.blocks| == BlockCount(c.m.size) && index >= |c.m.blocks| && Partly(c, index, content)
    ensures content == c.source && c.h(content) == c.m.digest
  {
    hide Text, Valid, Wanted, BlockCount, Agrees;
    AgreesAll(content, c.source, Wanted(c));
  }

  lemma EndTurnGood(c: Setup, s: State)
    requires Honest(c) && Sound(c) && |c.m.blocks| == BlockCount(c.m.size) && Inv(c, s) && Good(c, s)
    requires (s.receiver.AwaitEnd? || s.receiver.Confirming?) && ReceiverTurn(c, s).Some?
    ensures Good(c, ReceiverTurn(c, s).value)
  {
    hide Honest, Sound, Text, Wanted, MapFrame, OfferFrame, Plan, ForthScript, BackScript, BlockCount, Length, Got, Consumed, Receipt, ToAnswer;
    NothingLeft(c, s);
  }

  lemma StepGood(c: Setup, s: State, e: Event)
    requires Honest(c) && Sound(c) && |c.m.blocks| == BlockCount(c.m.size) && Inv(c, s) && Good(c, s)
    requires !e.SenderDies? && !e.ReceiverDies? && SoundNext(c, s, e).Some?
    ensures Good(c, SoundNext(c, s, e).value)
  {
    hide Honest, Sound, Text, BlockCount, Inv, Good, SenderTurn, ReceiverTurn;
    match e
    case SenderTurns => SenderTurnGood(c, s);
    case ReceiverTurns =>
      match s.receiver {
        case AwaitOffer(_) => OfferTurnGood(c, s);
        case Answering => AnswerTurnGood(c, s);
        case AwaitBlock(_, _, _) => BlockTurnGood(c, s);
        case AwaitEnd(_) => EndTurnGood(c, s);
        case Confirming(_) => EndTurnGood(c, s);
        case _ => Finishes(c, s);
      }
    case _ => MoveGood(c, s, e);
  }

  lemma {:induction false} RunGood(c: Setup, s: State, events: seq<Event>, s': State)
    requires Honest(c) && Sound(c) && |c.m.blocks| == BlockCount(c.m.size) && Inv(c, s) && Good(c, s)
    requires Run(c, s, events, s')
    requires forall i :: 0 <= i < |events| ==> !events[i].SenderDies? && !events[i].ReceiverDies?
    ensures Good(c, s')
    decreases |events|
  {
    hide SoundNext, Inv, Sound, Text, Honest, Good, BlockCount;
    if events != [] {
      StepKeeps(c, s, events[0]);
      StepGood(c, s, events[0]);
      RunGood(c, SoundNext(c, s, events[0]).value, events[1..], s');
    }
  }

  /**
   With consent, an unchanged source and nobody dying, every run that cannot go on ends with both
   sides successful and the receiver holding exactly the source, from any partial file and from the
   completed one. (By `RunsEnd` every run can be continued only finitely often.)
   */
  lemma Success(c: Setup, events: seq<Event>, s: State)
    requires Honest(c) && Sound(c) && Run(c, Initial, events, s)
    requires forall i :: 0 <= i < |events| ==> !events[i].SenderDies? && !events[i].ReceiverDies?
    requires forall e: Event :: !e.SenderDies? && !e.ReceiverDies? ==> SoundNext(c, s, e).None?
    ensures s.sender == SenderOk && s.receiver == ReceiverOk(c.source)
  {
    hide SoundNext, Sound, Text, Run, BlockCount, Wanted;
    SoundCount(c);
    InitialOkay(c);
    RunGood(c, Initial, events, s);
    if !(Stopped(s.sender) && Closed(s.receiver)) {
      var e := NeverStuck(c, events, s);
      assert false;
    }
    Agreement(c, events, s);
    assert Pinned(c.h, c.source);
  }

  /** A hash that tells one content from all others. */
  function Telling(source: Bytes, one: string, other: string): Hasher
    requires ValidHash(one) && ValidHash(other)
  {
    (b: Bytes) => if b == source then one else other
  }

  function OneBlock(source: Bytes, digest: string): Manifest {
    Manifest("", 3, |source|, BLOCK, digest, [digest])
  }

  function ParsesTo(m: Manifest): Bytes -> Option<Manifest> {
    (text: Bytes) => Some(m)
  }

  function Yields(bytes: Bytes): Sender.Reader {
    (index: nat) => Some(bytes)
  }

  function SmallTransfer(source: Bytes, part: Bytes, one: string, other: string): Setup
    requires ValidHash(one) && ValidHash(other)
  {
    Setup(Telling(source, one, other), source, OneBlock(source, one), ParsesTo(OneBlock(source, one)), Yields(source),
          Partial(part), |source|, false, |source|, 1, 1)
  }

  lemma OneBlockDescribes(source: Bytes, one: string, other: string)
    requires 0 < |source| <= BLOCK && ValidHash(one) && ValidHash(other)
    ensures BlockCount(|source|) == 1 && Block(source, |source|, 0) == source
    ensures Valid(OneBlock(source, one)) && Describes(Telling(source, one, other), OneBlock(source, one), source)
  {
    assert BlockCount(|source|) == 1;
    assert source[0..|source|] == source;
  }

  lemma SmallAccepted(source: Bytes, part: Bytes, one: string, other: string)
    requires 0 < |source| <= BLOCK && ValidHash(one) && ValidHash(other)
    ensures !Refused(SmallTransfer(source, part, one, other))
  {
    hide ValidHash, BlockCount, Selected;
    OneBlockDescribes(source, one, other);
    var c := SmallTransfer(source, part, one, other);
    Accounting(|source|, Missing(c.h, part, c.m));
  }

  /** Such transfers exist, from every partial file and with buffers of a single byte. */
  lemma HonestExists(source: Bytes, part: Bytes, one: string, other: string)
    requires 0 < |source| <= BLOCK && ValidHash(one) && ValidHash(other) && one != other
    ensures Honest(SmallTransfer(source, part, one, other))
  {
    hide Text, Valid, BlockCount, Block, Describes, ValidHash;
    OneBlockDescribes(source, one, other);
    SmallAccepted(source, part, one, other);
    hide Refused;
    assert Pinned(Telling(source, one, other), source);
  }
}
