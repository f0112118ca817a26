/**
 Any number of receive attempts on one directory, interleaved step by step. An attempt may stop at
 every step, by an error, a lost peer or the death of the process; then its lock is free again and the
 files stay as they are. A block write may stop anywhere between its bytes.
 */
module Attempts {
  import opened Common
  import opened Manifests
  import opened Publication
  import opened Receiver

  datatype Phase =
    | Arrived                               // the offer was read and validated
    | LockOpen                              // the lock file is open
    | Locked                                // the exclusive lock is held
    | Verifying(seen: Bytes)                // rehashing an already completed file
    | Vacant                                // the digest name was seen to be free
    | Scanning(existing: nat, bits: seq<nat>) // rehashing the partial file
    | Receiving(next: nat)                  // waiting for requested blocks
    | Writing(next: nat, bytes: Bytes)      // a verified block is being written
    | Hashing(seen: Bytes)                  // whole-file check by a second read
    | Verified
    | Linked                                // hard link made, partial name not yet removed
    | Published
    | Replied                               // the receipt is out and the lock released

  datatype Attempt = Attempt(offer: Manifest, lock: nat, part: nat, wanted: seq<nat>, phase: Phase)

  datatype State = State(store: Store, locks: map<nat, nat>, attempts: map<nat, Attempt>)

  /** What an attempt does next; stopping and arriving are separate events. */
  datatype Action =
    | OpenLock(inode: nat)
    | TryLock
    | LookDone
    | ReadDone(count: nat)
    | ConfirmDone
    | OpenPart(inode: nat)
    | ScanBlock
    | SetLength
    | SkipBlock
    | TakeBlock(payload: Bytes)
    | WriteSome(mixed: Bytes)
    | WriteEnd
    | StartHash
    | HashSome(count: nat)
    | AcceptHash
    | RenamePart
    | LinkPart
    | UnlinkPart
    | Reply

  datatype Event =
    | Arrive(id: nat, offer: Manifest)
    | Act(id: nat, action: Action)
    | Stop(id: nat)

  predicate Holding(p: Phase) {
    !p.Arrived? && !p.LockOpen? && !p.Replied?
  }

  /** The partial file is open for this attempt and the digest name is still free. */
  predicate PartOpen(p: Phase) {
    p.Scanning? || p.Receiving? || p.Writing? || p.Hashing? || p.Verified?
  }

  predicate FreshInode(s: Store, inode: nat) {
    inode !in s.data && forall n :: n in s.names ==> s.names[n] != inode
  }

  /** A write in progress: each byte of the block is still old or already new, all others are old. */
  predicate Torn(before: Bytes, after: Bytes, offset: nat, bytes: Bytes)
    requires offset + |bytes| <= |before|
  {
    && |after| == |before|
    && forall i :: 0 <= i < |before| ==>
         after[i] == before[i] || (offset <= i < offset + |bytes| && after[i] == bytes[i - offset])
  }

  // Each action on the directory and the attempt alone; None when it is not possible.

  datatype Move = Move(store: Store, attempt: Attempt)

  function Stay(s: Store, a: Attempt, phase: Phase): Option<Move> {
    Some(Move(s, a.(phase := phase)))
  }

  /** Reading on through a file: at most `count` more bytes. */
  function ReadOn(seen: Bytes, content: Bytes, count: nat): Bytes {
    if |seen| <= |content| then seen + content[|seen|..Min(|seen| + count, |content|)] else seen
  }

  function DoOpenLock(s: Store, a: Attempt, inode: nat): Option<Move> {
    var name := LockName(a.offer.digest);
    if !a.phase.Arrived? || (name !in s.names && !FreshInode(s, inode)) then None
    else
      var s' := Opened(s, name, inode);
      Some(Move(s', a.(lock := s'.names[name], phase := LockOpen)))
  }

  function DoLookDone(s: Store, a: Attempt): Option<Move> {
    var d := a.offer.digest;
    if !a.phase.Locked? then None
    else if d !in s.names then Stay(s, a, Vacant)
    else if !s.Regular(d) then None
    else Stay(s, a, Verifying([]))
  }

  function DoReadDone(s: Store, a: Attempt, count: nat): Option<Move> {
    var content := s.Content(a.offer.digest);
    if !a.phase.Verifying? || content.None? then None
    else Stay(s, a, Verifying(ReadOn(a.phase.seen, content.value, count)))
  }

  function DoConfirmDone(h: Hasher, s: Store, a: Attempt): Option<Move> {
    var content := s.Content(a.offer.digest);
    if !a.phase.Verifying? || content.None? || |a.phase.seen| != |content.value| then None
    else if |a.phase.seen| != a.offer.size || h(a.phase.seen) != a.offer.digest then None
    else Stay(s, a, Replied)
  }

  function DoOpenPart(s: Store, a: Attempt, inode: nat): Option<Move> {
    var name := PartName(a.offer.digest);
    if !a.phase.Vacant? || !Openable(s, a.offer.digest) then None
    else if name !in s.names && !FreshInode(s, inode) then None
    else
      var s' := Opened(s, name, inode);
      var part := s'.names[name];
      Some(Move(s', a.(part := part, phase := Scanning(|s'.data[part]|, []))))
  }

  function DoScanBlock(h: Hasher, s: Store, a: Attempt): Option<Move> {
    var m := a.offer;
    if !Valid(m) || !a.phase.Scanning? || |a.phase.bits| >= |m.blocks| || a.part !in s.data then None
    else
      var i := |a.phase.bits|;
      var end := i * BLOCK + Length(m.size, i);
      if a.phase.existing < end then Stay(s, a, a.phase.(bits := a.phase.bits + [1]))
      else if |s.data[a.part]| < end then None
      else Stay(s, a, a.phase.(bits := a.phase.bits + [if Matches(h, s.data[a.part], m, i) then 0 else 1]))
  }

  function DoSetLength(s: Store, a: Attempt): Option<Move> {
    if !a.phase.Scanning? || |a.phase.bits| != |a.offer.blocks| || a.part !in s.data then None
    else
      Some(Move(s.(data := s.data[a.part := Resize(s.data[a.part], a.offer.size)]),
                a.(wanted := a.phase.bits, phase := Receiving(0))))
  }

  function DoSkipBlock(s: Store, a: Attempt): Option<Move> {
    if !a.phase.Receiving? || a.phase.next >= |a.wanted| || a.wanted[a.phase.next] != 0 then None
    else Stay(s, a, Receiving(a.phase.next + 1))
  }

  /** read_exact, then the block's own hash check. */
  function DoTakeBlock(h: Hasher, s: Store, a: Attempt, payload: Bytes): Option<Move> {
    var m := a.offer;
    if !Valid(m) || !a.phase.Receiving? || a.phase.next >= |a.wanted| || a.phase.next >= |m.blocks| then None
    else if a.wanted[a.phase.next] == 0 then None
    else if |payload| != Length(m.size, a.phase.next) || h(payload) != m.blocks[a.phase.next] then None
    else Stay(s, a, Writing(a.phase.next, payload))
  }

  predicate InRange(s: Store, a: Attempt) {
    a.phase.Writing? && a.part in s.data && a.phase.next * BLOCK + |a.phase.bytes| <= |s.data[a.part]|
  }

  function DoWriteSome(s: Store, a: Attempt, mixed: Bytes): Option<Move> {
    if !InRange(s, a) || !Torn(s.data[a.part], mixed, a.phase.next * BLOCK, a.phase.bytes) then None
    else Some(Move(s.(data := s.data[a.part := mixed]), a))
  }

  function DoWriteEnd(s: Store, a: Attempt): Option<Move> {
    if !InRange(s, a) then None
    else
      var offset := a.phase.next * BLOCK;
      if s.data[a.part][offset..offset + |a.phase.bytes|] != a.phase.bytes then None
      else Stay(s, a, Receiving(a.phase.next + 1))
  }

  /** The stream ended where it should; the partial file is reopened by name. */
  function DoStartHash(s: Store, a: Attempt): Option<Move> {
    if !a.phase.Receiving? || a.phase.next != |a.wanted| || !s.Regular(PartName(a.offer.digest)) then None
    else Stay(s, a, Hashing([]))
  }

  function DoHashSome(s: Store, a: Attempt, count: nat): Option<Move> {
    var content := s.Content(PartName(a.offer.digest));
    if !a.phase.Hashing? || content.None? then None
    else Stay(s, a, Hashing(ReadOn(a.phase.seen, content.value, count)))
  }

  function DoAcceptHash(h: Hasher, s: Store, a: Attempt): Option<Move> {
    var content := s.Content(PartName(a.offer.digest));
    if !a.phase.Hashing? || content.None? || |a.phase.seen| != |content.value| then None
    else if h(a.phase.seen) != a.offer.digest then None
    else Stay(s, a, Verified)
  }

  function DoRenamePart(s: Store, a: Attempt): Option<Move> {
    var r := Rename(s, PartName(a.offer.digest), a.offer.digest);
    if !a.phase.Verified? || r.Err? then None else Stay(r.value, a, Published)
  }

  function DoLinkPart(s: Store, a: Attempt): Option<Move> {
    var r := HardLink(s, PartName(a.offer.digest), a.offer.digest);
    if !a.phase.Verified? || r.Err? then None else Stay(r.value, a, Linked)
  }

  function DoUnlinkPart(s: Store, a: Attempt): Option<Move> {
    var r := RemoveFile(s, PartName(a.offer.digest));
    if !a.phase.Linked? || r.Err? then None else Stay(r.value, a, Published)
  }

  function Do(h: Hasher, s: Store, a: Attempt, action: Action): Option<Move> {
    match action
    case OpenLock(inode) => DoOpenLock(s, a, inode)
    case TryLock => if a.phase.LockOpen? then Stay(s, a, Locked) else None
    case LookDone => DoLookDone(s, a)
    case ReadDone(count) => DoReadDone(s, a, count)
    case ConfirmDone => DoConfirmDone(h, s, a)
    case OpenPart(inode) => DoOpenPart(s, a, inode)
    case ScanBlock => DoScanBlock(h, s, a)
    case SetLength => DoSetLength(s, a)
    case SkipBlock => DoSkipBlock(s, a)
    case TakeBlock(payload) => DoTakeBlock(h, s, a, payload)
    case WriteSome(mixed) => DoWriteSome(s, a, mixed)
    case WriteEnd => DoWriteEnd(s, a)
    case StartHash => DoStartHash(s, a)
    case HashSome(count) => DoHashSome(s, a, count)
    case AcceptHash => DoAcceptHash(h, s, a)
    case RenamePart => DoRenamePart(s, a)
    case LinkPart => DoLinkPart(s, a)
    case UnlinkPart => DoUnlinkPart(s, a)
    case Reply => if a.phase.Published? then Stay(s, a, Replied) else None
  }

  /** The state after an event, if the event is possible. The lock follows the phase. */
  function Next(h: Hasher, s: State, e: Event): Option<State> {
    match e
    case Arrive(id, offer) =>
      if id in s.attempts || !Valid(offer) then None
      else Some(s.(attempts := s.attempts[id := Attempt(offer, 0, 0, [], Arrived)]))
    case Stop(id) =>
      if id !in s.attempts then None
      else
        var a := s.attempts[id];
        Some(State(s.store, if Holding(a.phase) then s.locks - {a.lock} else s.locks, s.attempts - {id}))
    case Act(id, action) =>
      if id !in s.attempts then None
      else
        var a := s.attempts[id];
        var move := Do(h, s.store, a, action);
        if move.None? || (action.TryLock? && a.lock in s.locks) then None
        else
          var b := move.value.attempt;
          Some(State(move.value.store,
                     if Holding(b.phase) then s.locks[b.lock := id]
                     else if Holding(a.phase) then s.locks - {a.lock} else s.locks,
                     s.attempts[id := b]))
  }

  // The invariant.

  /** Two names share an inode only as a digest and its own partial name, between link and unlink. */
  predicate Twins(n: string, k: string) {
    (ValidHash(n) && k == PartName(n)) || (ValidHash(k) && n == PartName(k))
  }

  ghost predicate Separated(s: Store) {
    forall n, k :: n in s.names && k in s.names && n != k && s.names[n] == s.names[k] ==> Twins(n, k)
  }

  /** Every regular file under a digest name has that digest. */
  ghost predicate DigestsHold(h: Hasher, s: Store) {
    forall d :: ValidHash(d) && s.Regular(d) ==> h(s.data[s.names[d]]) == d
  }

  /** Every block before `next`, and every block not asked for, is in place and has its offered digest. */
  ghost predicate BlocksIn(h: Hasher, content: Bytes, m: Manifest, wanted: seq<nat>, next: nat) {
    && |wanted| == |m.blocks| == BlockCount(m.size)
    && forall i :: 0 <= i < |m.blocks| && (i < next || wanted[i] == 0) ==> Matches(h, content, m, i)
  }

  ghost predicate PhaseOk(h: Hasher, s: Store, a: Attempt) {
    var d, m, p := a.offer.digest, a.offer, a.phase;
    && Valid(m)
    && (!p.Arrived? ==> LockName(d) in s.names && s.names[LockName(d)] == a.lock)
    && (p.Vacant? ==> d !in s.names)
    && (PartOpen(p) ==> d !in s.names && PartName(d) in s.names && s.names[PartName(d)] == a.part && a.part in s.data)
    && (p.Scanning? ==> p.existing == |s.data[a.part]| && |p.bits| <= |m.blocks|)
    && (p.Scanning? ==> forall i :: 0 <= i < |p.bits| ==> p.bits[i] == if Matches(h, s.data[a.part], m, i) then 0 else 1)
    && (p.Receiving? || p.Writing? ==> |a.wanted| == |m.blocks| && p.next <= |m.blocks| && |s.data[a.part]| == m.size)
    && (p.Writing? ==> p.next < |m.blocks| && |p.bytes| == Length(m.size, p.next) && h(p.bytes) == m.blocks[p.next])
    && (p.Receiving? || p.Writing? ==> BlocksIn(h, s.data[a.part], m, a.wanted, p.next))
    && (p.Writing? ==> a.wanted[p.next] != 0)
    && (p.Hashing? || p.Verified? ==> BlocksIn(h, s.data[a.part], m, a.wanted, |m.blocks|))
    && (p.Hashing? ==> p.seen <= s.data[a.part] && |s.data[a.part]| == m.size)
    && (p.Verified? ==> h(s.data[a.part]) == d && |s.data[a.part]| == m.size)
    && (p.Linked? ==> PartName(d) in s.names)
    && (p.Linked? || p.Published? || p.Replied? ==> s.Regular(d) && h(s.data[s.names[d]]) == d && |s.data[s.names[d]]| == m.size)
  }

  ghost predicate Inv(h: Hasher, s: State) {
    && Separated(s.store)
    && DigestsHold(h, s.store)
    && (forall id :: id in s.attempts ==> PhaseOk(h, s.store, s.attempts[id]))
    && (forall id :: id in s.attempts && Holding(s.attempts[id].phase) ==>
          s.attempts[id].lock in s.locks && s.locks[s.attempts[id].lock] == id)
    && LocksHeld(s)
  }

  /** No lock is left behind: each belongs to a live attempt that holds it. */
  ghost predicate LocksHeld(s: State) {
    forall i :: i in s.locks ==> Owns(s, i, s.locks[i])
  }

  predicate Owns(s: State, inode: nat, id: nat) {
    id in s.attempts && Holding(s.attempts[id].phase) && s.attempts[id].lock == inode
  }

  /** A directory between runs: no attempt, no lock; partial files may hold anything. */
  ghost predicate Init(h: Hasher, s: State) {
    s.attempts == map[] && s.locks == map[] && Separated(s.store) && DigestsHold(h, s.store)
  }

  /** What one step of an attempt on digest d may do to the directory. */
  ghost predicate Framed(s: Store, s': Store, d: string) {
    && (forall n :: n in s.names && n != PartName(d) ==> n in s'.names && s'.names[n] == s.names[n])
    && (forall n :: n in s'.names && n !in s.names ==> n == d || n == PartName(d) || n == LockName(d))
    && (forall i :: i in s.data ==> i in s'.data)
    && (forall i :: i in s.data && s'.data[i] != s.data[i] ==>
          PartName(d) in s.names && i == s.names[PartName(d)] && d !in s.names)
    && (forall i, n :: i in s'.data && i !in s.data && n in s.names ==> s.names[n] != i)
  }

  predicate SameName(s: Store, s': Store, n: string) {
    (n in s.names <==> n in s'.names) && (n in s.names ==> s'.names[n] == s.names[n])
  }

  predicate SameFile(s: Store, s': Store, n: string) {
    SameName(s, s', n) && s.Content(n) == s'.Content(n)
  }

  /** A step on one digest leaves the three names of every other digest and their files alone. */
  lemma OtherFiles(s: Store, s': Store, d: string, e: string)
    requires Separated(s) && ValidHash(d) && ValidHash(e) && d != e && Framed(s, s', d)
    ensures SameName(s, s', LockName(e)) && SameFile(s, s', PartName(e)) && SameFile(s, s', e)
  {
    hide PartName, LockName, ValidHash;
    NamesApart(d, e);
    NamesApart(e, d);
    NamesApart(e, e);
    TwinsOf(PartName(d), PartName(e));
    TwinsOf(PartName(d), e);
    LongNames(d);
    LongNames(e);
  }

  /** An attempt's claims depend only on its own three names and their files. */
  lemma ClaimsByFiles(h: Hasher, s: Store, s': Store, b: Attempt)
    requires PhaseOk(h, s, b)
    requires var d := b.offer.digest;
      SameName(s, s', LockName(d)) && SameFile(s, s', PartName(d)) && SameFile(s, s', d)
    ensures PhaseOk(h, s', b)
  {
    hide PartName, LockName, Valid, Matches, BlocksIn;
  }

  /** Attempts on other digests keep their claims. */
  lemma OtherDigest(h: Hasher, s: Store, s': Store, d: string, b: Attempt)
    requires Separated(s) && ValidHash(d) && Framed(s, s', d)
    requires PhaseOk(h, s, b) && b.offer.digest != d
    ensures PhaseOk(h, s', b)
  {
    hide PartName, LockName, Valid, Matches, ValidHash, SameFile, SameName;
    ValidDigest(b.offer);
    OtherFiles(s, s', d, b.offer.digest);
    ClaimsByFiles(h, s, s', b);
  }

  lemma ValidDigest(m: Manifest)
    requires Valid(m)
    ensures ValidHash(m.digest) && |m.blocks| == BlockCount(m.size)
  {
  }

  lemma TwinsOf(n: string, k: string)
    ensures Twins(n, k) ==> k == PartName(n) || n == PartName(k)
  {
  }

  /** Attempts on the same digest that do not hold the lock keep theirs. */
  lemma SameDigest(h: Hasher, s: Store, s': Store, d: string, b: Attempt)
    requires ValidHash(d) && Framed(s, s', d)
    requires PhaseOk(h, s, b) && b.offer.digest == d && !Holding(b.phase)
    ensures PhaseOk(h, s', b)
  {
    hide ValidHash, Matches, Valid;
    NamesApart(d, d);
  }

  // One action keeps what the attempt relies on and touches nothing else.

  ghost predicate Kept(h: Hasher, s: Store, a: Attempt, move: Move) {
    && Separated(move.store)
    && DigestsHold(h, move.store)
    && PhaseOk(h, move.store, move.attempt)
    && Framed(s, move.store, a.offer.digest)
    && move.attempt.offer == a.offer
    && (!a.phase.Arrived? ==> move.attempt.lock == a.lock)
  }

  ghost predicate Before(h: Hasher, s: Store, a: Attempt) {
    Separated(s) && DigestsHold(h, s) && PhaseOk(h, s, a)
  }

  /** Actions that leave the directory alone only have to justify their new phase. */
  lemma KeptStill(h: Hasher, s: Store, a: Attempt, b: Attempt)
    requires Before(h, s, a) && PhaseOk(h, s, b)
    requires b.offer == a.offer && b.lock == a.lock
    ensures Kept(h, s, a, Move(s, b))
  {
  }

  lemma KeptOpenLock(h: Hasher, s: Store, a: Attempt, inode: nat)
    requires Before(h, s, a) && DoOpenLock(s, a, inode).Some?
    ensures Kept(h, s, a, DoOpenLock(s, a, inode).value)
  {
    hide Matches, Valid, ValidHash, PartName, LockName, Separated, DigestsHold;
    ValidDigest(a.offer);
    LongNames(a.offer.digest);
    NamesApart(a.offer.digest, a.offer.digest);
    NewName(h, s, LockName(a.offer.digest), inode);
  }

  /** A new empty file under a lock or partial name disturbs nothing. */
  lemma NewName(h: Hasher, s: Store, name: string, inode: nat)
    requires Separated(s) && DigestsHold(h, s) && !ValidHash(name)
    requires name !in s.names ==> FreshInode(s, inode)
    ensures Separated(Opened(s, name, inode)) && DigestsHold(h, Opened(s, name, inode))
  {
    hide ValidHash, PartName;
    var s' := Opened(s, name, inode);
    forall d | ValidHash(d) && s'.Regular(d) ensures h(s'.data[s'.names[d]]) == d {
      assert d in s.names && s.Regular(d);
    }
  }

  lemma LongNames(d: string)
    requires ValidHash(d)
    ensures !ValidHash(LockName(d)) && !ValidHash(PartName(d))
  {
  }

  lemma KeptOpenPart(h: Hasher, s: Store, a: Attempt, inode: nat)
    requires Before(h, s, a) && DoOpenPart(s, a, inode).Some?
    ensures Kept(h, s, a, DoOpenPart(s, a, inode).value)
  {
    hide Matches, Valid, ValidHash, PartName, LockName, Separated, DigestsHold;
    ValidDigest(a.offer);
    LongNames(a.offer.digest);
    NamesApart(a.offer.digest, a.offer.digest);
    NewName(h, s, PartName(a.offer.digest), inode);
  }

  /** Changing the partial file while the digest name is free disturbs no published file. */
  lemma Rewrite(h: Hasher, s: Store, d: string, inode: nat, content: Bytes)
    requires Separated(s) && DigestsHold(h, s) && ValidHash(d)
    requires d !in s.names && PartName(d) in s.names && s.names[PartName(d)] == inode && inode in s.data
    ensures var s' := s.(data := s.data[inode := content]);
      Separated(s') && DigestsHold(h, s') && Framed(s, s', d)
  {
    hide ValidHash, PartName;
    var s' := s.(data := s.data[inode := content]);
    forall e | ValidHash(e) && s'.Regular(e) ensures h(s'.data[s'.names[e]]) == e {
      NamesApart(d, e);
      NamesApart(e, d);
      TwinsOf(PartName(d), e);
      assert s.names[e] != inode;
      assert s.Regular(e);
    }
  }

  lemma KeptScan(h: Hasher, s: Store, a: Attempt)
    requires Before(h, s, a) && DoScanBlock(h, s, a).Some?
    ensures Kept(h, s, a, DoScanBlock(h, s, a).value)
  {
    hide Valid, PartName, LockName, Separated, DigestsHold;
    KeptStill(h, s, a, DoScanBlock(h, s, a).value.attempt);
  }

  lemma ScannedIn(h: Hasher, m: Manifest, part: Bytes, bits: seq<nat>)
    requires Valid(m) && |bits| == |m.blocks| == BlockCount(m.size)
    requires forall i :: 0 <= i < |bits| ==> bits[i] == if Matches(h, part, m, i) then 0 else 1
    ensures BlocksIn(h, Resize(part, m.size), m, bits, 0)
  {
    hide Valid, Matches, Resize, BlockCount;
    forall i | 0 <= i < |bits| && bits[i] == 0 ensures Matches(h, Resize(part, m.size), m, i) {
      ResizeKeeps(h, m, part, i);
    }
  }

  /** A write in progress leaves the other blocks alone. */
  lemma TornLeaves(h: Hasher, m: Manifest, before: Bytes, after: Bytes, next: nat, bytes: Bytes, index: nat)
    requires |m.blocks| == BlockCount(m.size)
    requires next < |m.blocks| && index < |m.blocks| && index != next && |before| == m.size
    requires |bytes| == Length(m.size, next) && next * BLOCK + |bytes| <= |before|
    requires Torn(before, after, next * BLOCK, bytes) && Matches(h, before, m, index)
    ensures Matches(h, after, m, index)
  {
    hide Torn, Length, BlockCount;
    TornLength(before, after, next * BLOCK, bytes);
    BlocksApart(m.size, index, next);
    TornOutside(before, after, next * BLOCK, bytes, index * BLOCK, index * BLOCK + Length(m.size, index));
  }

  lemma TornIn(h: Hasher, m: Manifest, before: Bytes, after: Bytes, wanted: seq<nat>, next: nat, bytes: Bytes)
    requires |before| == m.size && next < |wanted| == |m.blocks| && wanted[next] != 0
    requires BlocksIn(h, before, m, wanted, next)
    requires |bytes| == Length(m.size, next) && next * BLOCK + |bytes| <= |before|
    requires Torn(before, after, next * BLOCK, bytes)
    ensures BlocksIn(h, after, m, wanted, next)
  {
    hide Torn, Length, BlockCount, Matches;
    forall i | 0 <= i < |m.blocks| && (i < next || wanted[i] == 0) ensures Matches(h, after, m, i) {
      TornLeaves(h, m, before, after, next, bytes, i);
    }
  }

  /** The block that has just been written whole is in place too. */
  lemma WrittenIn(h: Hasher, m: Manifest, content: Bytes, wanted: seq<nat>, next: nat, bytes: Bytes)
    requires |content| == m.size && next < |wanted| == |m.blocks|
    requires BlocksIn(h, content, m, wanted, next)
    requires |bytes| == Length(m.size, next) && h(bytes) == m.blocks[next] && next * BLOCK + |bytes| <= |content|
    requires content[next * BLOCK..next * BLOCK + |bytes|] == bytes
    ensures BlocksIn(h, content, m, wanted, next + 1)
  {
    hide Length, BlockCount;
  }

  lemma SkippedIn(h: Hasher, m: Manifest, content: Bytes, wanted: seq<nat>, next: nat)
    requires BlocksIn(h, content, m, wanted, next) && next < |wanted| && wanted[next] == 0
    ensures BlocksIn(h, content, m, wanted, next + 1)
  {
    hide Matches, BlockCount;
  }

  lemma KeptSetLength(h: Hasher, s: Store, a: Attempt)
    requires Before(h, s, a) && DoSetLength(s, a).Some?
    ensures Kept(h, s, a, DoSetLength(s, a).value)
  {
    hide Valid, PartName, LockName, Separated, DigestsHold, Matches, Framed, BlocksIn, BlockCount;
    ValidDigest(a.offer);
    NamesApart(a.offer.digest, a.offer.digest);
    ScannedIn(h, a.offer, s.data[a.part], a.phase.bits);
    Rewrite(h, s, a.offer.digest, a.part, Resize(s.data[a.part], a.offer.size));
  }

  lemma KeptWriteSome(h: Hasher, s: Store, a: Attempt, mixed: Bytes)
    requires Before(h, s, a) && DoWriteSome(s, a, mixed).Some?
    ensures Kept(h, s, a, DoWriteSome(s, a, mixed).value)
  {
    hide PhaseOk, Separated, DigestsHold, Framed, Torn, PartName;
    WritingOk(h, s, a, mixed);
    AttemptDigest(h, s, a);
    Rewrite(h, s, a.offer.digest, a.part, mixed);
  }

  /** An attempt that writes a block keeps its claims with every byte. */
  lemma WritingOk(h: Hasher, s: Store, a: Attempt, mixed: Bytes)
    requires PhaseOk(h, s, a) && InRange(s, a) && Torn(s.data[a.part], mixed, a.phase.next * BLOCK, a.phase.bytes)
    ensures PhaseOk(h, s.(data := s.data[a.part := mixed]), a)
    ensures var d := a.offer.digest; d !in s.names && PartName(d) in s.names && s.names[PartName(d)] == a.part && a.part in s.data
  {
    hide Valid, PartName, LockName, Matches, Torn, BlocksIn, BlockCount, Length;
    ValidDigest(a.offer);
    WantedLength(h, s.data[a.part], a.offer, a.wanted, a.phase.next);
    TornLength(s.data[a.part], mixed, a.phase.next * BLOCK, a.phase.bytes);
    TornIn(h, a.offer, s.data[a.part], mixed, a.wanted, a.phase.next, a.phase.bytes);
  }

  lemma WantedLength(h: Hasher, content: Bytes, m: Manifest, wanted: seq<nat>, next: nat)
    requires BlocksIn(h, content, m, wanted, next)
    ensures |wanted| == |m.blocks| == BlockCount(m.size)
  {
  }

  lemma TornLength(before: Bytes, after: Bytes, offset: nat, bytes: Bytes)
    requires offset + |bytes| <= |before| && Torn(before, after, offset, bytes)
    ensures |after| == |before|
  {
  }

  lemma KeptReadDone(h: Hasher, s: Store, a: Attempt, count: nat)
    requires Before(h, s, a) && DoReadDone(s, a, count).Some?
    ensures Kept(h, s, a, DoReadDone(s, a, count).value)
  {
    hide Valid, PartName, LockName, Separated, DigestsHold, Matches, ValidHash, ReadOn;
    KeptStill(h, s, a, DoReadDone(s, a, count).value.attempt);
  }

  lemma KeptConfirmDone(h: Hasher, s: Store, a: Attempt)
    requires Before(h, s, a) && DoConfirmDone(h, s, a).Some?
    ensures Kept(h, s, a, DoConfirmDone(h, s, a).value)
  {
    hide Valid, PartName, LockName, Separated, Matches, ValidHash, ReadOn;
    ValidDigest(a.offer);
    KeptStill(h, s, a, DoConfirmDone(h, s, a).value.attempt);
  }

  lemma ReadOnPrefix(seen: Bytes, content: Bytes, count: nat)
    requires seen <= content
    ensures ReadOn(seen, content, count) <= content
  {
  }

  lemma KeptHashSome(h: Hasher, s: Store, a: Attempt, count: nat)
    requires Before(h, s, a) && DoHashSome(s, a, count).Some?
    ensures Kept(h, s, a, DoHashSome(s, a, count).value)
  {
    hide Valid, PartName, LockName, Separated, DigestsHold, Matches, ValidHash, ReadOn;
    ReadOnPrefix(a.phase.seen, s.data[a.part], count);
    assert s.Content(PartName(a.offer.digest)) == Some(s.data[a.part]);
    assert DoHashSome(s, a, count).value.attempt.phase == Hashing(ReadOn(a.phase.seen, s.data[a.part], count));
    KeptStill(h, s, a, DoHashSome(s, a, count).value.attempt);
  }

  lemma KeptAcceptHash(h: Hasher, s: Store, a: Attempt)
    requires Before(h, s, a) && DoAcceptHash(h, s, a).Some?
    ensures Kept(h, s, a, DoAcceptHash(h, s, a).value)
  {
    hide Valid, PartName, LockName, Separated, DigestsHold, Matches, ValidHash, ReadOn;
    assert s.Content(PartName(a.offer.digest)) == Some(s.data[a.part]);
    assert a.phase.seen == s.data[a.part];
    KeptStill(h, s, a, DoAcceptHash(h, s, a).value.attempt);
  }

  lemma KeptSkip(h: Hasher, s: Store, a: Attempt)
    requires Before(h, s, a) && DoSkipBlock(s, a).Some?
    ensures Kept(h, s, a, DoSkipBlock(s, a).value)
  {
    hide Valid, PartName, LockName, Separated, DigestsHold, Matches, ValidHash, BlocksIn, BlockCount, Length;
    ValidDigest(a.offer);
    WantedLength(h, s.data[a.part], a.offer, a.wanted, a.phase.next);
    SkippedIn(h, a.offer, s.data[a.part], a.wanted, a.phase.next);
    KeptStill(h, s, a, DoSkipBlock(s, a).value.attempt);
  }

  lemma KeptTake(h: Hasher, s: Store, a: Attempt, payload: Bytes)
    requires Before(h, s, a) && DoTakeBlock(h, s, a, payload).Some?
    ensures Kept(h, s, a, DoTakeBlock(h, s, a, payload).value)
  {
    hide Valid, PartName, LockName, Separated, DigestsHold, Matches, ValidHash, BlocksIn, BlockCount, Length;
    ValidDigest(a.offer);
    KeptStill(h, s, a, DoTakeBlock(h, s, a, payload).value.attempt);
  }

  lemma KeptWriteEnd(h: Hasher, s: Store, a: Attempt)
    requires Before(h, s, a) && DoWriteEnd(s, a).Some?
    ensures Kept(h, s, a, DoWriteEnd(s, a).value)
  {
    hide Valid, PartName, LockName, Separated, DigestsHold, Matches, ValidHash, BlocksIn, BlockCount, Length;
    ValidDigest(a.offer);
    WantedLength(h, s.data[a.part], a.offer, a.wanted, a.phase.next);
    WrittenIn(h, a.offer, s.data[a.part], a.wanted, a.phase.next, a.phase.bytes);
    KeptStill(h, s, a, DoWriteEnd(s, a).value.attempt);
  }

  lemma KeptStartHash(h: Hasher, s: Store, a: Attempt)
    requires Before(h, s, a) && DoStartHash(s, a).Some?
    ensures Kept(h, s, a, DoStartHash(s, a).value)
  {
    hide Valid, PartName, LockName, Separated, DigestsHold, Matches, ValidHash, BlocksIn, BlockCount, Length;
    ValidDigest(a.offer);
    WantedLength(h, s.data[a.part], a.offer, a.wanted, a.phase.next);
    KeptStill(h, s, a, DoStartHash(s, a).value.attempt);
  }

  lemma KeptTurns(h: Hasher, s: Store, a: Attempt, action: Action)
    requires Before(h, s, a) && Do(h, s, a, action).Some?
    requires action.TryLock? || action.LookDone? || action.Reply?
    ensures Kept(h, s, a, Do(h, s, a, action).value)
  {
    hide Valid, PartName, LockName, Separated, DigestsHold, Matches, ValidHash, BlocksIn;
    KeptStill(h, s, a, Do(h, s, a, action).value.attempt);
  }

  /** Publication: the partial file has the digest, so the new name may show it. */
  lemma KeptRename(h: Hasher, s: Store, a: Attempt)
    requires Before(h, s, a) && DoRenamePart(s, a).Some?
    ensures Kept(h, s, a, DoRenamePart(s, a).value)
  {
    hide Valid, PartName, LockName, Matches, ValidHash, Separated, DigestsHold;
    ValidDigest(a.offer);
    NamesApart(a.offer.digest, a.offer.digest);
    PublishedNames(h, s, a, DoRenamePart(s, a).value.store);
  }

  lemma KeptLink(h: Hasher, s: Store, a: Attempt)
    requires Before(h, s, a) && DoLinkPart(s, a).Some?
    ensures Kept(h, s, a, DoLinkPart(s, a).value)
  {
    hide Valid, PartName, LockName, Matches, ValidHash, Separated, DigestsHold;
    ValidDigest(a.offer);
    NamesApart(a.offer.digest, a.offer.digest);
    PublishedNames(h, s, a, DoLinkPart(s, a).value.store);
  }

  lemma PublishedNames(h: Hasher, s: Store, a: Attempt, s': Store)
    requires Before(h, s, a) && a.phase.Verified?
    requires s'.data == s.data
    requires forall n :: n in s'.names ==> n == a.offer.digest || (n in s.names && s'.names[n] == s.names[n])
    requires a.offer.digest in s'.names && s'.names[a.offer.digest] == a.part
    ensures Separated(s') && DigestsHold(h, s')
  {
    hide Valid, PartName, LockName, Matches, ValidHash, Twins;
    ValidDigest(a.offer);
    var d := a.offer.digest;
    forall n, k | n in s'.names && k in s'.names && n != k && s'.names[n] == s'.names[k] ensures Twins(n, k) {
      if n == d {
        PartTwins(s, d, k);
      } else if k == d {
        PartTwins(s, d, n);
      }
    }
    forall e | ValidHash(e) && s'.Regular(e) ensures h(s'.data[s'.names[e]]) == e {
      if e != d { assert s.Regular(e); }
    }
  }

  /** Whatever shares the partial file's inode is the partial name itself. */
  lemma PartTwins(s: Store, d: string, k: string)
    requires Separated(s) && ValidHash(d) && d !in s.names && PartName(d) in s.names
    requires k in s.names && s.names[k] == s.names[PartName(d)]
    ensures Twins(d, k) && Twins(k, d)
  {
    LongNames(d);
    TwinsOf(PartName(d), k);
    if k != PartName(d) {
      assert Twins(PartName(d), k);
      NamesApart(d, k);
    }
  }

  lemma KeptUnlink(h: Hasher, s: Store, a: Attempt)
    requires Before(h, s, a) && DoUnlinkPart(s, a).Some?
    ensures Kept(h, s, a, DoUnlinkPart(s, a).value)
  {
    hide Valid, PartName, LockName, Matches, ValidHash, Twins;
    ValidDigest(a.offer);
    NamesApart(a.offer.digest, a.offer.digest);
    var s' := DoUnlinkPart(s, a).value.store;
    forall e | ValidHash(e) && s'.Regular(e) ensures h(s'.data[s'.names[e]]) == e {
      assert s.Regular(e);
    }
  }

  lemma KeptAlways(h: Hasher, s: Store, a: Attempt, action: Action)
    requires Before(h, s, a) && Do(h, s, a, action).Some?
    ensures Kept(h, s, a, Do(h, s, a, action).value)
  {
    hide Before, Kept;
    match action
    case OpenLock(inode) => KeptOpenLock(h, s, a, inode);
    case OpenPart(inode) => KeptOpenPart(h, s, a, inode);
    case ScanBlock => KeptScan(h, s, a);
    case SetLength => KeptSetLength(h, s, a);
    case WriteSome(mixed) => KeptWriteSome(h, s, a, mixed);
    case RenamePart => KeptRename(h, s, a);
    case LinkPart => KeptLink(h, s, a);
    case UnlinkPart => KeptUnlink(h, s, a);
    case ReadDone(count) => KeptReadDone(h, s, a, count);
    case HashSome(count) => KeptHashSome(h, s, a, count);
    case ConfirmDone => KeptConfirmDone(h, s, a);
    case AcceptHash => KeptAcceptHash(h, s, a);
    case SkipBlock => KeptSkip(h, s, a);
    case TakeBlock(payload) => KeptTake(h, s, a, payload);
    case WriteEnd => KeptWriteEnd(h, s, a);
    case StartHash => KeptStartHash(h, s, a);
    case TryLock => KeptTurns(h, s, a, action);
    case LookDone => KeptTurns(h, s, a, action);
    case Reply => KeptTurns(h, s, a, action);
  }

  // All attempts together.

  lemma LockShared(h: Hasher, s: State, i: nat, j: nat)
    requires Inv(h, s) && i in s.attempts && j in s.attempts && i != j
    requires s.attempts[i].offer.digest == s.attempts[j].offer.digest
    requires Holding(s.attempts[i].phase)
    ensures !Holding(s.attempts[j].phase)
  {
    hide Valid, PartName, Matches, ValidHash, Separated, DigestsHold;
    var a, b := s.attempts[i], s.attempts[j];
    assert PhaseOk(h, s.store, a) && PhaseOk(h, s.store, b);
    assert Holding(b.phase) ==> a.lock == b.lock;
  }

  /** An attempt that changes anything but its lock file holds its digest's lock. */
  lemma ActorHolds(h: Hasher, s: Store, a: Attempt, action: Action)
    requires Do(h, s, a, action).Some?
    ensures Holding(a.phase) || Do(h, s, a, action).value.store == s || action.OpenLock?
    ensures action.OpenLock? ==> a.phase.Arrived?
    ensures Holding(Do(h, s, a, action).value.attempt.phase) ==> Holding(a.phase) || action.TryLock?
    ensures Do(h, s, a, action).value.attempt.phase.Replied? ==> Holding(a.phase)
  {
    hide Matches, Valid, Torn, Openable, Opened;
  }

  lemma OpenLockSame(h: Hasher, s: Store, a: Attempt, inode: nat, b: Attempt)
    requires Before(h, s, a) && DoOpenLock(s, a, inode).Some?
    requires PhaseOk(h, s, b) && b.offer.digest == a.offer.digest
    ensures PhaseOk(h, DoOpenLock(s, a, inode).value.store, b)
  {
    hide Matches, Valid, ValidHash, PartName, LockName;
    ValidDigest(a.offer);
    NamesApart(a.offer.digest, a.offer.digest);
  }

  /** The claims of every other attempt survive a step. */
  lemma BystanderOk(h: Hasher, s: State, id: nat, action: Action, other: nat)
    requires Inv(h, s) && id in s.attempts && other in s.attempts && other != id
    requires Do(h, s.store, s.attempts[id], action).Some?
    ensures PhaseOk(h, Do(h, s.store, s.attempts[id], action).value.store, s.attempts[other])
  {
    hide Matches, Valid, ValidHash, PartName, LockName, Do, PhaseOk, Separated, DigestsHold, Framed, Holding;
    var a, b := s.attempts[id], s.attempts[other];
    var s' := Do(h, s.store, a, action).value.store;
    KeptAlways(h, s.store, a, action);
    AttemptDigest(h, s.store, a);
    if b.offer.digest != a.offer.digest {
      OtherDigest(h, s.store, s', a.offer.digest, b);
    } else {
      ActorHolds(h, s.store, a, action);
      if Holding(a.phase) {
        LockShared(h, s, id, other);
        SameDigest(h, s.store, s', a.offer.digest, b);
      } else if action.OpenLock? {
        DoIsOpenLock(h, s.store, a, action);
        OpenLockSame(h, s.store, a, action.inode, b);
      }
    }
  }

  lemma DoIsOpenLock(h: Hasher, s: Store, a: Attempt, action: Action)
    requires action.OpenLock?
    ensures Do(h, s, a, action) == DoOpenLock(s, a, action.inode)
  {
  }

  lemma AttemptDigest(h: Hasher, s: Store, a: Attempt)
    requires PhaseOk(h, s, a)
    ensures ValidHash(a.offer.digest)
  {
    ValidDigest(a.offer);
  }

  /** Holders of other digests have other lock files. */
  lemma OtherLock(h: Hasher, s: Store, a: Attempt, b: Attempt)
    requires Separated(s) && PhaseOk(h, s, a) && PhaseOk(h, s, b)
    requires !a.phase.Arrived? && !b.phase.Arrived? && a.lock == b.lock
    ensures a.offer.digest == b.offer.digest
  {
    hide Matches, Valid, ValidHash, PartName, LockName;
    AttemptDigest(h, s, a);
    AttemptDigest(h, s, b);
    NamesApart(a.offer.digest, b.offer.digest);
    LongNames(a.offer.digest);
    LongNames(b.offer.digest);
  }

  /** The locks still belong to the attempts that hold them. */
  lemma LocksOk(h: Hasher, s: State, e: Event, other: nat)
    requires Inv(h, s) && Next(h, s, e).Some? && e.Act?
    requires other in s.attempts && other != e.id && Holding(s.attempts[other].phase)
    ensures var s' := Next(h, s, e).value;
      s.attempts[other].lock in s'.locks && s'.locks[s.attempts[other].lock] == other
  {
    hide Matches, Valid, ValidHash, PartName, LockName, Do, PhaseOk, Separated, DigestsHold, Framed, Holding;
    var a, b := s.attempts[e.id], s.attempts[other];
    KeptAlways(h, s.store, a, e.action);
    ActorHolds(h, s.store, a, e.action);
    var a' := Do(h, s.store, a, e.action).value.attempt;
    if Holding(a.phase) && a.lock == b.lock {
      HoldingArrived(a.phase);
      HoldingArrived(b.phase);
      OtherLock(h, s.store, a, b);
      LockShared(h, s, other, e.id);
    }
    if Holding(a'.phase) && !Holding(a.phase) {
      TryLockStays(h, s.store, a, e.action);
    }
    if Holding(a'.phase) && Holding(a.phase) { HoldingArrived(a.phase); }
  }

  lemma HoldingArrived(p: Phase)
    ensures Holding(p) ==> !p.Arrived?
  {
  }

  lemma TryLockStays(h: Hasher, s: Store, a: Attempt, action: Action)
    requires Do(h, s, a, action).Some? && action.TryLock?
    ensures Do(h, s, a, action).value.attempt.lock == a.lock
  {
  }

  lemma ActKeepsLocks(h: Hasher, s: State, e: Event)
    requires Inv(h, s) && Next(h, s, e).Some? && e.Act?
    ensures LocksHeld(Next(h, s, e).value)
  {
    hide Matches, Valid, ValidHash, PartName, LockName, Do, PhaseOk, Separated, DigestsHold, Framed, Holding;
    var s' := Next(h, s, e).value;
    var a := s.attempts[e.id];
    KeptAlways(h, s.store, a, e.action);
    HoldingArrived(a.phase);
    forall i | i in s'.locks ensures Owns(s', i, s'.locks[i]) {
      assert i in s.locks ==> Owns(s, i, s.locks[i]);
    }
  }

  lemma ActKeepsInv(h: Hasher, s: State, e: Event)
    requires Inv(h, s) && Next(h, s, e).Some? && e.Act?
    ensures Inv(h, Next(h, s, e).value)
  {
    ActKeepsLocks(h, s, e);
    hide LocksHeld, Owns;
    hide Matches, Valid, ValidHash, PartName, LockName, Do, PhaseOk, Separated, DigestsHold, Framed, Holding;
    var s' := Next(h, s, e).value;
    KeptAlways(h, s.store, s.attempts[e.id], e.action);
    forall id | id in s'.attempts ensures PhaseOk(h, s'.store, s'.attempts[id]) {
      if id != e.id { BystanderOk(h, s, e.id, e.action, id); }
    }
    forall id | id in s'.attempts && Holding(s'.attempts[id].phase)
      ensures s'.attempts[id].lock in s'.locks && s'.locks[s'.attempts[id].lock] == id
    {
      if id != e.id { LocksOk(h, s, e, id); }
    }
  }

  lemma StopKeepsInv(h: Hasher, s: State, e: Event)
    requires Inv(h, s) && Next(h, s, e).Some? && e.Stop?
    ensures Inv(h, Next(h, s, e).value)
  {
    hide Matches, Valid, ValidHash, PartName, LockName, PhaseOk, Separated, DigestsHold, Holding;
    var s' := Next(h, s, e).value;
    var a := s.attempts[e.id];
    forall id | id in s'.attempts && Holding(s'.attempts[id].phase)
      ensures s'.attempts[id].lock in s'.locks && s'.locks[s'.attempts[id].lock] == id
    {
      assert Holding(a.phase) ==> s.attempts[id].lock != a.lock;
    }
    forall i | i in s'.locks ensures Owns(s', i, s'.locks[i]) {
      assert Owns(s, i, s.locks[i]);
    }
  }

  /** Every step of every attempt keeps the invariant. */
  lemma StepKeepsInv(h: Hasher, s: State, e: Event)
    requires Inv(h, s) && Next(h, s, e).Some?
    ensures Inv(h, Next(h, s, e).value)
  {
    match e
    case Act(_, _) => ActKeepsInv(h, s, e);
    case Stop(_) => StopKeepsInv(h, s, e);
    case Arrive(_, _) => ArriveKeepsInv(h, s, e);
  }

  lemma ArriveKeepsInv(h: Hasher, s: State, e: Event)
    requires Inv(h, s) && Next(h, s, e).Some? && e.Arrive?
    ensures Inv(h, Next(h, s, e).value)
  {
    hide Matches, Valid, ValidHash, PartName, LockName, Separated, DigestsHold;
  }

  // What follows for every step and every run.

  /** A run: the events one after the other, all of them possible. */
  ghost predicate Run(h: Hasher, s: State, events: seq<Event>, s': State)
    decreases |events|
  {
    if events == [] then s' == s
    else Next(h, s, events[0]).Some? && Run(h, Next(h, s, events[0]).value, events[1..], s')
  }

  lemma FramedKeeps(s: Store, s': Store, d: string, e: string)
    requires Separated(s) && Framed(s, s', d) && ValidHash(d) && ValidHash(e) && s.Regular(e)
    ensures s'.Regular(e) && s'.names[e] == s.names[e] && s'.Content(e) == s.Content(e)
  {
    hide PartName, LockName, ValidHash;
    NamesApart(d, e);
    LongNames(d);
  }

  /** A file under a digest name is never replaced, removed or changed. */
  lemma PublishedStays(h: Hasher, s: State, e: Event, d: string)
    requires Inv(h, s) && Next(h, s, e).Some? && ValidHash(d) && s.store.Regular(d)
    ensures Next(h, s, e).value.store.Regular(d)
    ensures Next(h, s, e).value.store.names[d] == s.store.names[d]
    ensures Next(h, s, e).value.store.Content(d) == s.store.Content(d)
  {
    hide Matches, Valid, ValidHash, PartName, LockName, Do, PhaseOk, DigestsHold, Holding, Separated, Framed;
    if e.Act? {
      var a := s.attempts[e.id];
      KeptAlways(h, s.store, a, e.action);
      AttemptDigest(h, s.store, a);
      FramedKeeps(s.store, Next(h, s, e).value.store, a.offer.digest, d);
    }
  }

  /** Only the holder of a digest's lock makes, changes or removes that digest's partial file. */
  lemma PartTouchedByHolder(h: Hasher, s: State, e: Event, d: string)
    requires Inv(h, s) && Next(h, s, e).Some? && ValidHash(d)
    requires !SameFile(s.store, Next(h, s, e).value.store, PartName(d))
    ensures e.Act? && e.id in s.attempts && s.attempts[e.id].offer.digest == d && Holding(s.attempts[e.id].phase)
    ensures LockName(d) in s.store.names && s.store.names[LockName(d)] in s.locks
    ensures s.locks[s.store.names[LockName(d)]] == e.id
  {
    hide Matches, Valid, ValidHash, LockName, Do, Framed, PartName, Separated, DigestsHold;
    var a := s.attempts[e.id];
    AttemptDigest(h, s.store, a);
    KeptAlways(h, s.store, a, e.action);
    if a.offer.digest != d { OtherFiles(s.store, Next(h, s, e).value.store, a.offer.digest, d); }
    ActorHolds(h, s.store, a, e.action);
    if e.action.OpenLock? {
      DoIsOpenLock(h, s.store, a, e.action);
      LockLeavesPart(s.store, a, e.action.inode);
    }
  }

  lemma LockLeavesPart(s: Store, a: Attempt, inode: nat)
    requires DoOpenLock(s, a, inode).Some? && ValidHash(a.offer.digest)
    ensures SameFile(s, DoOpenLock(s, a, inode).value.store, PartName(a.offer.digest))
  {
    hide PartName, LockName, ValidHash;
    NamesApart(a.offer.digest, a.offer.digest);
  }

  /** Safety of whole runs: digests hold, published files stay, and every receipt was earned. */
  lemma {:induction false} RunSafe(h: Hasher, s: State, events: seq<Event>, s': State)
    requires Inv(h, s) && Run(h, s, events, s')
    ensures Inv(h, s')
    ensures forall d :: ValidHash(d) && s'.store.Regular(d) ==> h(s'.store.data[s'.store.names[d]]) == d
    ensures forall d :: ValidHash(d) && s.store.Regular(d) ==>
      s'.store.Content(d) == s.store.Content(d) && s'.store.names[d] == s.store.names[d]
    decreases |events|
  {
    hide Matches, Valid, ValidHash, PartName, LockName, Next, PhaseOk, Separated;
    if events != [] {
      var s1 := Next(h, s, events[0]).value;
      StepKeepsInv(h, s, events[0]);
      RunSafe(h, s1, events[1..], s');
      forall d | ValidHash(d) && s.store.Regular(d)
        ensures s'.store.Content(d) == s.store.Content(d) && s'.store.names[d] == s.store.names[d]
      {
        PublishedStays(h, s, events[0], d);
      }
    }
  }

  /** From a directory between runs: whatever was received is right, and a receipt means it is there. */
  lemma DirectorySafe(h: Hasher, s: State, events: seq<Event>, s': State, id: nat)
    requires Init(h, s) && Run(h, s, events, s')
    ensures Inv(h, s')
    ensures id in s'.attempts && s'.attempts[id].phase.Replied? ==>
      var m := s'.attempts[id].offer;
      s'.store.Regular(m.digest) && h(s'.store.Content(m.digest).value) == m.digest
      && |s'.store.Content(m.digest).value| == m.size
  {
    hide Matches, Valid, ValidHash, PartName, LockName, Separated, Next;
    RunSafe(h, s, events, s');
  }

  /**
   From a directory between runs: when an attempt has come to the whole-file check, every block of its
   partial file is in place and has the digest that was offered for it.
   */
  lemma BlocksVerified(h: Hasher, s: State, events: seq<Event>, s': State, id: nat, index: nat)
    requires Init(h, s) && Run(h, s, events, s') && id in s'.attempts
    requires s'.attempts[id].phase.Hashing? || s'.attempts[id].phase.Verified?
    ensures var a := s'.attempts[id];
      && |a.offer.blocks| == BlockCount(a.offer.size) && a.part in s'.store.data
      && s'.store.Content(PartName(a.offer.digest)) == Some(s'.store.data[a.part])
      && (index < |a.offer.blocks| ==> Matches(h, s'.store.data[a.part], a.offer, index))
  {
    hide Matches, Valid, ValidHash, PartName, LockName, Separated, Next;
    RunSafe(h, s, events, s');
    assert PhaseOk(h, s'.store, s'.attempts[id]);
  }

  // Progress is never lost.

  /** What has been received for a digest so far, partial or complete. */
  function Current(s: Store, d: string): Bytes {
    if s.Regular(d) then s.data[s.names[d]] else PartOf(s, d)
  }

  /** Blocks of the offered lengths are determined by the offered digests. */
  ghost predicate OfferPins(h: Hasher, m: Manifest) {
    forall x: Bytes, y: Bytes, i: nat :: i < |m.blocks| && h(x) == m.blocks[i] && h(y) == m.blocks[i] && |x| == |y| ==> x == y
  }

  /** Every attempt on the digest offers the same geometry and block digests. */
  ghost predicate OneOffer(s: State, m: Manifest) {
    forall id :: id in s.attempts && s.attempts[id].offer.digest == m.digest ==>
      s.attempts[id].offer.size == m.size && s.attempts[id].offer.blocks == m.blocks
  }

  lemma BlocksApart(size: nat, i: nat, j: nat)
    requires i < BlockCount(size) && j < BlockCount(size) && i != j
    ensures i * BLOCK + Length(size, i) <= j * BLOCK || j * BLOCK + Length(size, j) <= i * BLOCK
  {
  }

  lemma TornSame(before: Bytes, after: Bytes, offset: nat, bytes: Bytes)
    requires offset + |bytes| <= |before| && Torn(before, after, offset, bytes)
    requires before[offset..offset + |bytes|] == bytes
    ensures after == before
  {
    forall i | 0 <= i < |before| ensures after[i] == before[i] {
      if offset <= i < offset + |bytes| { assert before[offset..offset + |bytes|][i - offset] == before[i]; }
    }
  }

  lemma TornOutside(before: Bytes, after: Bytes, offset: nat, bytes: Bytes, from: nat, to: nat)
    requires offset + |bytes| <= |before| && Torn(before, after, offset, bytes)
    requires from <= to <= |before| && (to <= offset || offset + |bytes| <= from)
    ensures after[from..to] == before[from..to]
  {
  }

  lemma PinnedBlock(h: Hasher, m: Manifest, x: Bytes, y: Bytes, i: nat)
    requires OfferPins(h, m) && i < |m.blocks| && |x| == |y| && h(x) == m.blocks[i] && h(y) == m.blocks[i]
    ensures x == y
  {
  }

  /** A torn write over a block that already matches changes nothing; other blocks are out of its reach. */
  lemma TornKeeps(h: Hasher, m: Manifest, before: Bytes, after: Bytes, next: nat, bytes: Bytes, index: nat)
    requires |m.blocks| == BlockCount(m.size)
    requires next < |m.blocks| && index < |m.blocks| && |before| == m.size
    requires |bytes| == Length(m.size, next) && h(bytes) == m.blocks[next]
    requires Torn(before, after, next * BLOCK, bytes)
    requires Matches(h, before, m, index) && OfferPins(h, m)
    ensures Matches(h, after, m, index)
  {
    hide Torn, Length, BlockCount, OfferPins;
    TornLength(before, after, next * BLOCK, bytes);
    if index == next {
      PinnedBlock(h, m, Block(before, m.size, index), bytes, index);
      TornSame(before, after, next * BLOCK, bytes);
    } else {
      BlocksApart(m.size, index, next);
      TornOutside(before, after, next * BLOCK, bytes, index * BLOCK, index * BLOCK + Length(m.size, index));
    }
  }

  /** Setting the length keeps every complete block, whether it cuts or extends the file. */
  lemma ResizeKeeps(h: Hasher, m: Manifest, part: Bytes, index: nat)
    requires Valid(m) && index < |m.blocks| && Matches(h, part, m, index)
    ensures Matches(h, Resize(part, m.size), m, index)
  {
    hide Utf8Length, Control, ValidHash;
    ResizeKeepsBlocks(part, m.size, index);
  }

  /** One action never loses a block that was already right. */
  lemma ActKeepsBlock(h: Hasher, s: Store, a: Attempt, action: Action, m: Manifest, index: nat)
    requires Before(h, s, a) && Do(h, s, a, action).Some?
    requires a.offer.digest == m.digest && a.offer.size == m.size && a.offer.blocks == m.blocks
    requires Valid(m) && OfferPins(h, m) && index < |m.blocks|
    requires Matches(h, Current(s, m.digest), m, index)
    ensures Matches(h, Current(Do(h, s, a, action).value.store, m.digest), m, index)
  {
    hide Matches, Valid, ValidHash, PartName, LockName, Separated, DigestsHold, OfferPins, Torn;
    ValidDigest(m);
    NamesApart(m.digest, m.digest);
    match action
    case SetLength =>
      PartIsCurrent(h, s, a, Resize(s.data[a.part], m.size));
      ResizeKeeps(h, m, s.data[a.part], index);
    case WriteSome(mixed) =>
      PartIsCurrent(h, s, a, mixed);
      TornKeeps(h, m, s.data[a.part], mixed, a.phase.next, a.phase.bytes, index);
    case OpenPart(inode) => OpeningKeeps(s, a, inode);
    case OpenLock(inode) => LockingKeeps(s, a, inode);
    case RenamePart => PublishingKeeps(h, s, a, action);
    case LinkPart => PublishingKeeps(h, s, a, action);
    case UnlinkPart => PublishingKeeps(h, s, a, action);
    case _ => QuietKeeps(h, s, a, action);
  }

  lemma PartIsCurrent(h: Hasher, s: Store, a: Attempt, content: Bytes)
    requires PhaseOk(h, s, a) && PartOpen(a.phase)
    ensures Current(s, a.offer.digest) == s.data[a.part]
    ensures Current(s.(data := s.data[a.part := content]), a.offer.digest) == content
  {
    hide Matches, Valid, PartName, LockName;
  }

  lemma OpeningKeeps(s: Store, a: Attempt, inode: nat)
    requires DoOpenPart(s, a, inode).Some? && ValidHash(a.offer.digest)
    ensures Current(DoOpenPart(s, a, inode).value.store, a.offer.digest) == Current(s, a.offer.digest)
  {
    hide PartName, LockName, ValidHash;
    NamesApart(a.offer.digest, a.offer.digest);
  }

  lemma LockingKeeps(s: Store, a: Attempt, inode: nat)
    requires DoOpenLock(s, a, inode).Some? && ValidHash(a.offer.digest)
    ensures Current(DoOpenLock(s, a, inode).value.store, a.offer.digest) == Current(s, a.offer.digest)
  {
    hide PartName, LockName, ValidHash;
    NamesApart(a.offer.digest, a.offer.digest);
  }

  /** Publication shows under the new name what the old one held. */
  lemma PublishingKeeps(h: Hasher, s: Store, a: Attempt, action: Action)
    requires PhaseOk(h, s, a) && Do(h, s, a, action).Some?
    requires action.RenamePart? || action.LinkPart? || action.UnlinkPart?
    ensures Current(Do(h, s, a, action).value.store, a.offer.digest) == Current(s, a.offer.digest)
  {
    hide Matches, Valid, PartName, LockName, ValidHash;
    ValidDigest(a.offer);
    NamesApart(a.offer.digest, a.offer.digest);
  }

  lemma QuietKeeps(h: Hasher, s: Store, a: Attempt, action: Action)
    requires Do(h, s, a, action).Some?
    requires !action.SetLength? && !action.WriteSome? && !action.OpenPart? && !action.OpenLock?
    requires !action.RenamePart? && !action.LinkPart? && !action.UnlinkPart?
    ensures Do(h, s, a, action).value.store == s
  {
    hide Matches, Valid, PartName, LockName, ReadOn;
  }

  /** In every interleaving with one manifest, the set of blocks already right only grows. */
  lemma {:induction false} RunKeepsBlock(h: Hasher, s: State, events: seq<Event>, s': State, m: Manifest, index: nat)
    requires Inv(h, s) && Run(h, s, events, s') && Valid(m) && OfferPins(h, m) && index < |m.blocks|
    requires OneOffer(s, m)
    requires forall e :: e in events && e.Arrive? && e.offer.digest == m.digest ==>
      e.offer.size == m.size && e.offer.blocks == m.blocks
    requires Matches(h, Current(s.store, m.digest), m, index)
    ensures Matches(h, Current(s'.store, m.digest), m, index)
    decreases |events|
  {
    hide Matches, Valid, ValidHash, PartName, LockName, Separated, DigestsHold, OfferPins, PhaseOk, Do;
    ValidDigest(m);
    if events != [] {
      var e := events[0];
      var s1 := Next(h, s, e).value;
      StepKeepsInv(h, s, e);
      StepKeepsBlock(h, s, e, m, index);
      assert OneOffer(s1, m) by {
        if e.Act? { KeptAlways(h, s.store, s.attempts[e.id], e.action); }
      }
      RunKeepsBlock(h, s1, events[1..], s', m, index);
    }
  }

  lemma StepKeepsBlock(h: Hasher, s: State, e: Event, m: Manifest, index: nat)
    requires Inv(h, s) && Next(h, s, e).Some? && Valid(m) && OfferPins(h, m) && index < |m.blocks|
    requires OneOffer(s, m) && Matches(h, Current(s.store, m.digest), m, index)
    ensures Matches(h, Current(Next(h, s, e).value.store, m.digest), m, index)
  {
    hide Matches, Valid, ValidHash, PartName, LockName, Separated, DigestsHold, OfferPins, PhaseOk, Do;
    ValidDigest(m);
    if e.Act? {
      var a := s.attempts[e.id];
      if a.offer.digest == m.digest {
        ActKeepsBlock(h, s.store, a, e.action, m, index);
      } else {
        KeptAlways(h, s.store, a, e.action);
        AttemptDigest(h, s.store, a);
        OtherFiles(s.store, Next(h, s, e).value.store, a.offer.digest, m.digest);
      }
    }
  }
}
