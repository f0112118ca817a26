/**
 However earlier attempts ended, and whatever else is going on in the directory: once the lock of a
 digest is free, a new attempt with an honest sender can be carried through to publication.
 */
module Recovery {
  import opened Common
  import opened Manifests
  import opened Publication
  import opened Receiver
  import opened Attempts

  /** One attempt's actions in a row, while it holds its lock. */
  ghost predicate Solo(h: Hasher, s: Store, a: Attempt, actions: seq<Action>, s': Store, a': Attempt)
    decreases |actions|
  {
    if actions == [] then s' == s && a' == a
    else
      var move := Do(h, s, a, actions[0]);
      && move.Some? && SoloStep(a, actions[0], move.value.attempt)
      && Solo(h, move.value.store, move.value.attempt, actions[1..], s', a')
  }

  predicate SoloStep(a: Attempt, action: Action, b: Attempt) {
    !action.TryLock? && Holding(a.phase) && Holding(b.phase) && b.lock == a.lock
  }

  lemma SoloOne(h: Hasher, s: Store, a: Attempt, action: Action, s': Store, a': Attempt)
    requires Do(h, s, a, action) == Some(Move(s', a')) && SoloStep(a, action, a')
    ensures Solo(h, s, a, [action], s', a')
  {
    hide Do, SoloStep;
    assert [action][1..] == [];
  }

  lemma {:induction false} SoloJoin(h: Hasher, s: Store, a: Attempt, xs: seq<Action>, s1: Store, a1: Attempt, ys: seq<Action>, s2: Store, a2: Attempt)
    requires Solo(h, s, a, xs, s1, a1) && Solo(h, s1, a1, ys, s2, a2)
    ensures Solo(h, s, a, xs + ys, s2, a2)
    decreases |xs|
  {
    hide Do, SoloStep;
    if xs == [] {
      assert xs + ys == ys;
    } else {
      var move := Do(h, s, a, xs[0]).value;
      assert (xs + ys)[0] == xs[0] && (xs + ys)[1..] == xs[1..] + ys;
      SoloJoin(h, move.store, move.attempt, xs[1..], s1, a1, ys, s2, a2);
    }
  }

  /** The state in which attempt `id` stands as `a` over the directory `store`. */
  function At(s: State, id: nat, store: Store, a: Attempt): State {
    State(store, s.locks, s.attempts[id := a])
  }

  function Acts(id: nat, actions: seq<Action>): (es: seq<Event>)
    ensures |es| == |actions|
  {
    seq(|actions|, i requires 0 <= i < |actions| => Act(id, actions[i]))
  }

  lemma {:induction false} SoloRuns(h: Hasher, s: State, id: nat, store: Store, a: Attempt, actions: seq<Action>, store': Store, a': Attempt)
    requires Solo(h, store, a, actions, store', a')
    requires a.lock in s.locks && s.locks[a.lock] == id
    ensures Run(h, At(s, id, store, a), Acts(id, actions), At(s, id, store', a'))
    decreases |actions|
  {
    hide Do;
    if actions != [] {
      var move := Do(h, store, a, actions[0]).value;
      SoloRuns(h, s, id, move.store, move.attempt, actions[1..], store', a');
      assert Acts(id, actions)[1..] == Acts(id, actions[1..]);
      OneAct(h, s, id, store, a, actions[0], move);
    }
  }

  lemma OneAct(h: Hasher, s: State, id: nat, store: Store, a: Attempt, action: Action, move: Move)
    requires Do(h, store, a, action) == Some(move) && SoloStep(a, action, move.attempt)
    requires a.lock in s.locks && s.locks[a.lock] == id
    ensures Next(h, At(s, id, store, a), Act(id, action)) == Some(At(s, id, move.store, move.attempt))
  {
    hide Do;
    assert s.locks[a.lock := id] == s.locks;
    assert s.attempts[id := a][id := move.attempt] == s.attempts[id := move.attempt];
  }

  lemma {:induction false} RunJoin(h: Hasher, s: State, xs: seq<Event>, s1: State, ys: seq<Event>, s2: State)
    requires Run(h, s, xs, s1) && Run(h, s1, ys, s2)
    ensures Run(h, s, xs + ys, s2)
    decreases |xs|
  {
    hide Next;
    if xs == [] {
      assert xs + ys == ys;
    } else {
      assert (xs + ys)[0] == xs[0] && (xs + ys)[1..] == xs[1..] + ys;
      RunJoin(h, Next(h, s, xs[0]).value, xs[1..], s1, ys, s2);
    }
  }

  lemma RunOne(h: Hasher, s: State, e: Event, s': State)
    requires Next(h, s, e) == Some(s')
    ensures Run(h, s, [e], s')
  {
    hide Next;
    assert [e][1..] == [];
  }

  /** Each action is its own case. */
  lemma Case(h: Hasher, s: Store, a: Attempt, action: Action)
    ensures action.StartHash? ==> Do(h, s, a, action) == DoStartHash(s, a)
    ensures action.HashSome? ==> Do(h, s, a, action) == DoHashSome(s, a, action.count)
    ensures action.AcceptHash? ==> Do(h, s, a, action) == DoAcceptHash(h, s, a)
    ensures action.RenamePart? ==> Do(h, s, a, action) == DoRenamePart(s, a)
    ensures action.LinkPart? ==> Do(h, s, a, action) == DoLinkPart(s, a)
    ensures action.UnlinkPart? ==> Do(h, s, a, action) == DoUnlinkPart(s, a)
    ensures action.LookDone? ==> Do(h, s, a, action) == DoLookDone(s, a)
    ensures action.ReadDone? ==> Do(h, s, a, action) == DoReadDone(s, a, action.count)
    ensures action.ConfirmDone? ==> Do(h, s, a, action) == DoConfirmDone(h, s, a)
    ensures action.WriteSome? ==> Do(h, s, a, action) == DoWriteSome(s, a, action.mixed)
    ensures action.WriteEnd? ==> Do(h, s, a, action) == DoWriteEnd(s, a)
    ensures action.TakeBlock? ==> Do(h, s, a, action) == DoTakeBlock(h, s, a, action.payload)
    ensures action.ScanBlock? ==> Do(h, s, a, action) == DoScanBlock(h, s, a)
    ensures action.OpenLock? ==> Do(h, s, a, action) == DoOpenLock(s, a, action.inode)
    ensures action.Reply? && a.phase.Published? ==> Do(h, s, a, action) == Some(Move(s, a.(phase := Replied)))
  {
    hide DoOpenLock, DoLookDone, DoReadDone, DoConfirmDone, DoOpenPart, DoScanBlock, DoSetLength, DoSkipBlock, DoTakeBlock,
      DoWriteSome, DoWriteEnd, DoStartHash, DoHashSome, DoAcceptHash, DoRenamePart, DoLinkPart, DoUnlinkPart;
  }

  /** The scan goes through all blocks and finds the resume map. */
  lemma {:induction false} ScanAll(h: Hasher, s: Store, a: Attempt) returns (actions: seq<Action>)
    requires Valid(a.offer) && a.phase.Scanning? && a.part in s.data
    requires |a.offer.blocks| == BlockCount(a.offer.size)
    requires a.phase.existing == |s.data[a.part]|
    requires a.phase.bits <= Missing(h, s.data[a.part], a.offer)
    ensures Solo(h, s, a, actions, s, a.(phase := Scanning(a.phase.existing, Missing(h, s.data[a.part], a.offer))))
    decreases |a.offer.blocks| - |a.phase.bits|
  {
    hide Valid, BlockCount, Length, Matches;
    var all := Missing(h, s.data[a.part], a.offer);
    if |a.phase.bits| == |all| {
      return [];
    }
    var b := a.(phase := a.phase.(bits := all[..|a.phase.bits| + 1]));
    ScanOne(h, s, a, b);
    SoloOne(h, s, a, ScanBlock, s, b);
    var rest := ScanAll(h, s, b);
    SoloJoin(h, s, a, [ScanBlock], s, b, rest, s, a.(phase := Scanning(a.phase.existing, all)));
    actions := [ScanBlock] + rest;
  }

  lemma ScanOne(h: Hasher, s: Store, a: Attempt, b: Attempt)
    requires Valid(a.offer) && a.phase.Scanning? && a.part in s.data
    requires |a.offer.blocks| == BlockCount(a.offer.size)
    requires a.phase.existing == |s.data[a.part]| && |a.phase.bits| < |a.offer.blocks|
    requires a.phase.bits <= Missing(h, s.data[a.part], a.offer)
    requires b == a.(phase := a.phase.(bits := Missing(h, s.data[a.part], a.offer)[..|a.phase.bits| + 1]))
    ensures Do(h, s, a, ScanBlock) == Some(Move(s, b))
  {
    hide Valid, BlockCount, Length, Do;
    Case(h, s, a, ScanBlock);
    var all := Missing(h, s.data[a.part], a.offer);
    assert all[..|a.phase.bits| + 1] == a.phase.bits + [all[|a.phase.bits|]];
  }

  /**
   On every payload the attempt can go exactly as far as cutting the payload goes: to the end if all
   requested blocks are there and right, otherwise to the block that is short or wrong.
   */
  lemma {:induction false} FillAll(h: Hasher, s: Store, a: Attempt, payload: Bytes) returns (actions: seq<Action>, next: nat)
    requires Valid(a.offer) && a.part in s.data && |s.data[a.part]| == a.offer.size
    requires a.phase.Receiving? && a.phase.next <= |a.wanted| == |a.offer.blocks| == BlockCount(a.offer.size)
    ensures var f := Fill(h, a.offer, a.wanted, s.data[a.part], payload, a.phase.next);
      && Solo(h, s, a, actions, s.(data := s.data[a.part := f.content]), a.(phase := Receiving(next)))
      && (f.Filled? ==> next == |a.wanted|)
    decreases |a.wanted| - a.phase.next
  {
    hide Valid, BlockCount, Length, Do, Splice, Fill;
    var i, m, content := a.phase.next, a.offer, s.data[a.part];
    ghost var f := Fill(h, m, a.wanted, content, payload, i);
    next := i;
    assert s.data[a.part := content] == s.data;
    if i == |a.wanted| {
      FillDone(h, m, a.wanted, content, payload);
      return [], i;
    }
    FillUnfold(h, m, a.wanted, content, payload, i);
    var b := a.(phase := Receiving(i + 1));
    if a.wanted[i] == 0 {
      SkipOne(h, s, a, b);
      SoloOne(h, s, a, SkipBlock, s, b);
      var rest;
      rest, next := FillAll(h, s, b, payload);
      SoloJoin(h, s, a, [SkipBlock], s, b, rest, s.(data := s.data[a.part := f.content]), a.(phase := Receiving(next)));
      return [SkipBlock] + rest, next;
    }
    var n := Length(m.size, i);
    if |payload| < n || h(payload[..n]) != m.blocks[i] { return [], i; }
    var mixed := Splice(content, m.size, i, payload[..n]);
    var s1 := s.(data := s.data[a.part := mixed]);
    var some := WriteOne(h, s, a, b, payload[..n], mixed);
    var rest;
    rest, next := FillAll(h, s1, b, payload[n..]);
    assert s1.data[a.part := f.content] == s.data[a.part := f.content];
    SoloJoin(h, s, a, some, s1, b, rest, s.(data := s.data[a.part := f.content]), a.(phase := Receiving(next)));
    actions := some + rest;
  }

  lemma DescribesCount(h: Hasher, m: Manifest, source: Bytes)
    requires Describes(h, m, source)
    ensures m.size == |source| && |m.blocks| == BlockCount(|source|) && m.digest == h(source)
  {
  }

  lemma SkipOne(h: Hasher, s: Store, a: Attempt, b: Attempt)
    requires a.phase.Receiving? && a.phase.next < |a.wanted| && a.wanted[a.phase.next] == 0
    requires b == a.(phase := Receiving(a.phase.next + 1))
    ensures Do(h, s, a, SkipBlock) == Some(Move(s, b)) && SoloStep(a, SkipBlock, b)
  {
  }

  /** Take the block, write it, go on. */
  lemma WriteOne(h: Hasher, s: Store, a: Attempt, b: Attempt, block: Bytes, mixed: Bytes) returns (actions: seq<Action>)
    requires Valid(a.offer) && a.part in s.data && |s.data[a.part]| == a.offer.size
    requires a.phase.Receiving? && a.phase.next < |a.wanted| == |a.offer.blocks| && a.wanted[a.phase.next] != 0
    requires |a.offer.blocks| == BlockCount(a.offer.size)
    requires |block| == Length(a.offer.size, a.phase.next) && h(block) == a.offer.blocks[a.phase.next]
    requires mixed == Splice(s.data[a.part], a.offer.size, a.phase.next, block)
    requires b == a.(phase := Receiving(a.phase.next + 1))
    ensures Solo(h, s, a, actions, s.(data := s.data[a.part := mixed]), b)
  {
    hide Valid, BlockCount, Length, Torn, Splice, Do;
    var i := a.phase.next;
    var w := a.(phase := Writing(i, block));
    var s1 := s.(data := s.data[a.part := mixed]);
    SpliceTorn(s.data[a.part], a.offer.size, i, block, mixed);
    TakeStep(h, s, a, w);
    SoloOne(h, s, a, TakeBlock(block), s, w);
    WriteStep(h, s, w, mixed);
    SoloOne(h, s, w, WriteSome(mixed), s1, w);
    EndStep(h, s1, w, b, i, block, mixed);
    SoloOne(h, s1, w, WriteEnd, s1, b);
    SoloJoin(h, s, a, [TakeBlock(block)], s, w, [WriteSome(mixed)], s1, w);
    SoloJoin(h, s, a, [TakeBlock(block)] + [WriteSome(mixed)], s1, w, [WriteEnd], s1, b);
    actions := [TakeBlock(block)] + [WriteSome(mixed)] + [WriteEnd];
  }

  lemma SpliceTorn(before: Bytes, size: nat, i: nat, block: Bytes, mixed: Bytes)
    requires |before| == size && i < BlockCount(size) && |block| == Length(size, i)
    requires mixed == Splice(before, size, i, block)
    ensures i * BLOCK + |block| <= size && Torn(before, mixed, i * BLOCK, block)
    ensures mixed[i * BLOCK..i * BLOCK + |block|] == block && |mixed| == size
  {
    hide BlockCount;
  }

  lemma TakeStep(h: Hasher, s: Store, a: Attempt, w: Attempt)
    requires Valid(a.offer) && |a.offer.blocks| == BlockCount(a.offer.size)
    requires a.phase.Receiving? && a.phase.next < |a.wanted| == |a.offer.blocks| && a.wanted[a.phase.next] != 0
    requires w.phase.Writing? && w == a.(phase := Writing(a.phase.next, w.phase.bytes))
    requires |w.phase.bytes| == Length(a.offer.size, a.phase.next) && h(w.phase.bytes) == a.offer.blocks[a.phase.next]
    ensures Do(h, s, a, TakeBlock(w.phase.bytes)) == Some(Move(s, w)) && SoloStep(a, TakeBlock(w.phase.bytes), w)
  {
    hide Valid, BlockCount, Length, Do;
    Case(h, s, a, TakeBlock(w.phase.bytes));
  }

  lemma WriteStep(h: Hasher, s: Store, w: Attempt, mixed: Bytes)
    requires w.phase.Writing? && w.part in s.data && w.phase.next * BLOCK + |w.phase.bytes| <= |s.data[w.part]|
    requires Torn(s.data[w.part], mixed, w.phase.next * BLOCK, w.phase.bytes)
    ensures Do(h, s, w, WriteSome(mixed)) == Some(Move(s.(data := s.data[w.part := mixed]), w)) && SoloStep(w, WriteSome(mixed), w)
  {
    hide Torn, Do;
    Case(h, s, w, WriteSome(mixed));
  }

  lemma EndStep(h: Hasher, s: Store, w: Attempt, b: Attempt, i: nat, block: Bytes, mixed: Bytes)
    requires w.phase == Writing(i, block) && w.part in s.data && s.data[w.part] == mixed
    requires i * BLOCK + |block| <= |mixed| && mixed[i * BLOCK..i * BLOCK + |block|] == block
    requires b == w.(phase := Receiving(i + 1))
    ensures Do(h, s, w, WriteEnd) == Some(Move(s, b)) && SoloStep(w, WriteEnd, b)
  {
    hide Do;
    Case(h, s, w, WriteEnd);
  }

  /** The whole-file check passes and the file gets its name, by renaming or by linking and unlinking. */
  lemma PublishAll(h: Hasher, s: Store, a: Attempt, source: Bytes, link: bool) returns (actions: seq<Action>, s': Store)
    requires a.phase == Receiving(|a.wanted|) && a.offer.digest == h(source)
    requires a.offer.digest !in s.names && PartName(a.offer.digest) in s.names && PartName(a.offer.digest) != a.offer.digest
    requires s.names[PartName(a.offer.digest)] == a.part && a.part in s.data && s.data[a.part] == source
    ensures Solo(h, s, a, actions, s', a.(phase := Published))
    ensures s'.Content(a.offer.digest) == Some(source) && PartName(a.offer.digest) !in s'.names
  {
    hide PartName, Do, SoloStep, Solo;
    var a1, a2, a3 := a.(phase := Hashing([])), a.(phase := Hashing(source)), a.(phase := Verified);
    StartStep(h, s, a, a1);
    HashStep(h, s, a1, a2, source);
    AcceptStep(h, s, a2, a3, source);
    var naming;
    naming, s' := NameAll(h, s, a3, source, link);
    SoloOne(h, s, a, StartHash, s, a1);
    SoloOne(h, s, a1, HashSome(|source|), s, a2);
    SoloOne(h, s, a2, AcceptHash, s, a3);
    SoloJoin(h, s, a, [StartHash], s, a1, [HashSome(|source|)], s, a2);
    SoloJoin(h, s, a, [StartHash] + [HashSome(|source|)], s, a2, [AcceptHash], s, a3);
    SoloJoin(h, s, a, [StartHash] + [HashSome(|source|)] + [AcceptHash], s, a3, naming, s', a.(phase := Published));
    actions := [StartHash] + [HashSome(|source|)] + [AcceptHash] + naming;
  }

  lemma StartStep(h: Hasher, s: Store, a: Attempt, b: Attempt)
    requires a.phase == Receiving(|a.wanted|) && s.Regular(PartName(a.offer.digest))
    requires b == a.(phase := Hashing([]))
    ensures Do(h, s, a, StartHash) == Some(Move(s, b)) && SoloStep(a, StartHash, b)
  {
    hide PartName, Do;
    Case(h, s, a, StartHash);
  }

  lemma HashStep(h: Hasher, s: Store, a: Attempt, b: Attempt, source: Bytes)
    requires a.phase == Hashing([]) && s.Content(PartName(a.offer.digest)) == Some(source)
    requires b == a.(phase := Hashing(source))
    ensures Do(h, s, a, HashSome(|source|)) == Some(Move(s, b)) && SoloStep(a, HashSome(|source|), b)
  {
    hide PartName, ReadOn, Do;
    ReadWhole(source);
    Case(h, s, a, HashSome(|source|));
  }

  lemma AcceptStep(h: Hasher, s: Store, a: Attempt, b: Attempt, source: Bytes)
    requires a.phase == Hashing(source) && s.Content(PartName(a.offer.digest)) == Some(source) && a.offer.digest == h(source)
    requires b == a.(phase := Verified)
    ensures Do(h, s, a, AcceptHash) == Some(Move(s, b)) && SoloStep(a, AcceptHash, b)
  {
    hide PartName, Do;
    Case(h, s, a, AcceptHash);
  }

  lemma ReadWhole(content: Bytes)
    ensures ReadOn([], content, |content|) == content
  {
  }

  lemma NameAll(h: Hasher, s: Store, a: Attempt, source: Bytes, link: bool) returns (actions: seq<Action>, s': Store)
    requires a.phase.Verified? && PartName(a.offer.digest) != a.offer.digest
    requires a.offer.digest !in s.names && s.Content(PartName(a.offer.digest)) == Some(source)
    ensures Solo(h, s, a, actions, s', a.(phase := Published))
    ensures s'.Content(a.offer.digest) == Some(source) && PartName(a.offer.digest) !in s'.names
  {
    hide PartName, Do, SoloStep, Solo, HardLink, RemoveFile;
    var b := a.(phase := Published);
    if link {
      var s1 := LinkStep(h, s, a, a.(phase := Linked), source);
      s' := UnlinkStep(h, s1, a.(phase := Linked), b, source);
      SoloOne(h, s, a, LinkPart, s1, a.(phase := Linked));
      SoloOne(h, s1, a.(phase := Linked), UnlinkPart, s', b);
      SoloJoin(h, s, a, [LinkPart], s1, a.(phase := Linked), [UnlinkPart], s', b);
      actions := [LinkPart] + [UnlinkPart];
    } else {
      s' := RenameStep(h, s, a, b, source);
      SoloOne(h, s, a, RenamePart, s', b);
      actions := [RenamePart];
    }
  }

  lemma RenameStep(h: Hasher, s: Store, a: Attempt, b: Attempt, source: Bytes) returns (s': Store)
    requires a.phase.Verified? && b == a.(phase := Published) && PartName(a.offer.digest) != a.offer.digest
    requires a.offer.digest !in s.names && s.Content(PartName(a.offer.digest)) == Some(source)
    ensures Do(h, s, a, RenamePart) == Some(Move(s', b)) && SoloStep(a, RenamePart, b)
    ensures s'.Content(a.offer.digest) == Some(source) && PartName(a.offer.digest) !in s'.names
  {
    hide PartName, Do;
    Case(h, s, a, RenamePart);
    s' := Rename(s, PartName(a.offer.digest), a.offer.digest).value;
  }

  lemma LinkStep(h: Hasher, s: Store, a: Attempt, b: Attempt, source: Bytes) returns (s': Store)
    requires a.phase.Verified? && b == a.(phase := Linked)
    requires a.offer.digest !in s.names && s.Content(PartName(a.offer.digest)) == Some(source)
    ensures Do(h, s, a, LinkPart) == Some(Move(s', b)) && SoloStep(a, LinkPart, b)
    ensures s'.Content(a.offer.digest) == Some(source) && PartName(a.offer.digest) in s'.names
  {
    hide PartName, Do;
    Case(h, s, a, LinkPart);
    s' := HardLink(s, PartName(a.offer.digest), a.offer.digest).value;
  }

  lemma UnlinkStep(h: Hasher, s: Store, a: Attempt, b: Attempt, source: Bytes) returns (s': Store)
    requires a.phase.Linked? && b == a.(phase := Published) && PartName(a.offer.digest) != a.offer.digest
    requires PartName(a.offer.digest) in s.names && s.Content(a.offer.digest) == Some(source)
    ensures Do(h, s, a, UnlinkPart) == Some(Move(s', b)) && SoloStep(a, UnlinkPart, b)
    ensures s'.Content(a.offer.digest) == Some(source) && PartName(a.offer.digest) !in s'.names
  {
    hide PartName, Do;
    Case(h, s, a, UnlinkPart);
    s' := RemoveFile(s, PartName(a.offer.digest)).value;
  }

  // From the arrival of the offer to the receipt.

  lemma {:induction false} Unused(used: set<nat>) returns (n: nat)
    ensures n !in used && forall k :: k in used ==> k < n
  {
    if used == {} { return 0; }
    var k :| k in used;
    var m := Unused(used - {k});
    n := if m > k then m else k + 1;
    assert used == (used - {k}) + {k};
  }

  lemma FreshExists(s: Store) returns (inode: nat)
    ensures FreshInode(s, inode)
  {
    var used := s.data.Keys + s.names.Values;
    inode := Unused(used);
    assert forall n :: n in s.names ==> s.names[n] in s.names.Values;
  }

  /** The partial file of a digest whose name is free is opened or made. */
  lemma OpenAll(h: Hasher, s: Store, a: Attempt) returns (actions: seq<Action>, s': Store, b: Attempt)
    requires a.phase.Locked? && ValidHash(a.offer.digest) && a.offer.digest !in s.names && Openable(s, a.offer.digest)
    ensures Solo(h, s, a, actions, s', b)
    ensures b.phase.Scanning? && b.phase.bits == [] && b.offer == a.offer && b.lock == a.lock
    ensures b.part in s'.data && b.phase.existing == |s'.data[b.part]|
    ensures a.offer.digest !in s'.names && PartName(a.offer.digest) in s'.names && s'.names[PartName(a.offer.digest)] == b.part
    ensures s'.data[b.part] == PartOf(s, a.offer.digest)
  {
    hide PartName, ValidHash, Solo;
    NamesApart(a.offer.digest, a.offer.digest);
    var v := a.(phase := Vacant);
    var inode := FreshExists(s);
    s' := Opened(s, PartName(a.offer.digest), inode);
    b := v.(part := s'.names[PartName(a.offer.digest)], phase := Scanning(|s'.data[s'.names[PartName(a.offer.digest)]]|, []));
    SoloOne(h, s, a, LookDone, s, v);
    SoloOne(h, s, v, OpenPart(inode), s', b);
    hide Do, SoloStep;
    SoloJoin(h, s, a, [LookDone], s, v, [OpenPart(inode)], s', b);
    actions := [LookDone] + [OpenPart(inode)];
  }

  lemma LengthStep(h: Hasher, s: Store, a: Attempt, b: Attempt, s': Store)
    requires a.phase.Scanning? && |a.phase.bits| == |a.offer.blocks| && a.part in s.data
    requires s' == s.(data := s.data[a.part := Resize(s.data[a.part], a.offer.size)])
    requires b == a.(wanted := a.phase.bits, phase := Receiving(0))
    ensures Do(h, s, a, SetLength) == Some(Move(s', b)) && SoloStep(a, SetLength, b)
  {
    hide Resize;
  }

  /** The partial file is this attempt's, holds `content`, and the digest is still free. */
  predicate HoldsPart(s: Store, a: Attempt, content: Bytes) {
    && a.offer.digest !in s.names
    && PartName(a.offer.digest) in s.names && s.names[PartName(a.offer.digest)] == a.part
    && a.part in s.data && s.data[a.part] == content
  }

  /** From the lock to the resume map: open, scan, set the length. */
  lemma Prepare(h: Hasher, s: Store, a: Attempt) returns (actions: seq<Action>, s': Store, b: Attempt)
    requires a.phase.Locked? && Valid(a.offer) && |a.offer.blocks| == BlockCount(a.offer.size)
    requires a.offer.digest !in s.names && Openable(s, a.offer.digest)
    ensures Solo(h, s, a, actions, s', b)
    ensures b.phase == Receiving(0) && b.offer == a.offer && b.lock == a.lock
    ensures b.wanted == Missing(h, PartOf(s, a.offer.digest), a.offer)
    ensures HoldsPart(s', b, Resize(PartOf(s, a.offer.digest), a.offer.size))
  {
    hide Valid, Solo, PartName, Resize, Missing, Openable, BlockCount, Do, SoloStep, PartOf;
    var m := a.offer;
    ValidDigest(m);
    var opening, s1, a1 := OpenAll(h, s, a);
    var scanning := ScanAll(h, s1, a1);
    var part := s1.data[a1.part];
    var a2 := a1.(phase := Scanning(a1.phase.existing, Missing(h, part, m)));
    b := a2.(wanted := Missing(h, part, m), phase := Receiving(0));
    s' := s1.(data := s1.data[a1.part := Resize(part, m.size)]);
    LengthStep(h, s1, a2, b, s');
    SoloOne(h, s1, a2, SetLength, s', b);
    SoloJoin(h, s, a, opening, s1, a1, scanning, s1, a2);
    SoloJoin(h, s, a, opening + scanning, s1, a2, [SetLength], s', b);
    actions := opening + scanning + [SetLength];
  }

  /** From the lock on, with any payload that is complete and right: the content it makes is published. */
  lemma CarryThrough(h: Hasher, s: Store, a: Attempt, payload: Bytes, link: bool) returns (actions: seq<Action>, s': Store, b: Attempt)
    requires a.phase.Locked? && Valid(a.offer) && |a.offer.blocks| == BlockCount(a.offer.size)
    requires a.offer.digest !in s.names && Openable(s, a.offer.digest)
    requires var f := FillOf(h, s, a.offer, payload); f.Filled? && h(f.content) == a.offer.digest
    ensures Solo(h, s, a, actions, s', b)
    ensures b.phase.Published? && b.offer == a.offer && b.lock == a.lock
    ensures s'.Content(a.offer.digest) == Some(FillOf(h, s, a.offer, payload).content)
    ensures PartName(a.offer.digest) !in s'.names
  {
    hide Valid, Solo, PartName, Resize, Missing, Openable, BlockCount, Do, SoloStep, PartOf, Fill;
    ValidDigest(a.offer);
    NamesApart(a.offer.digest, a.offer.digest);
    var preparing, s1, a1 := Prepare(h, s, a);
    var filling, last := FillAll(h, s1, a1, payload);
    var content := FillOf(h, s, a.offer, payload).content;
    var a2 := a1.(phase := Receiving(|a1.wanted|));
    var s2 := s1.(data := s1.data[a1.part := content]);
    var publishing;
    publishing, s' := PublishAll(h, s2, a2, content, link);
    b := a2.(phase := Published);
    SoloJoin(h, s, a, preparing, s1, a1, filling, s2, a2);
    SoloJoin(h, s, a, preparing + filling, s2, a2, publishing, s', b);
    actions := preparing + filling + publishing;
  }

  /** What a payload makes of the partial file, as the receiving method cuts it. */
  function FillOf(h: Hasher, s: Store, m: Manifest, payload: Bytes): Filling
    requires |m.blocks| == BlockCount(m.size)
  {
    var part := PartOf(s, m.digest);
    Fill(h, m, Missing(h, part, m), Resize(part, m.size), payload, 0)
  }

  /** Whatever the sequential receiver publishes, a run of the step machine publishes from the same directory. */
  lemma MachineReceives(h: Hasher, s: Store, s': Store, a: Attempt, peer: seq<nat> -> Bytes, wanted: seq<nat>, link: bool)
    returns (actions: seq<Action>, t: Store, b: Attempt)
    requires a.phase.Locked? && Valid(a.offer) && |a.offer.blocks| == BlockCount(a.offer.size)
    requires a.offer.digest !in s.names && Openable(s, a.offer.digest)
    requires FreshOutcome(h, s, s', a.offer, peer, true, wanted)
    ensures Solo(h, s, a, actions, t, b) && b.phase.Published?
    ensures t.Content(a.offer.digest) == s'.Content(a.offer.digest) && PartName(a.offer.digest) !in t.names
  {
    hide Valid, Solo, PartName, Resize, Missing, Openable, BlockCount, PartOf, Fill;
    actions, t, b := CarryThrough(h, s, a, peer(wanted), link);
  }

  /** The digest's lock file is absent or not locked. */
  predicate LockFree(s: State, digest: string) {
    LockName(digest) in s.store.names ==> s.store.names[LockName(digest)] !in s.locks
  }

  /** No attempt on the digest is between taking its lock and its end. */
  ghost predicate NobodyHolds(s: State, digest: string) {
    forall id :: id in s.attempts && s.attempts[id].offer.digest == digest ==> !Holding(s.attempts[id].phase)
  }

  /** In a reachable state a digest's lock is free exactly when no attempt on the digest holds it. */
  lemma FreeExactly(h: Hasher, s: State, digest: string)
    requires Inv(h, s) && ValidHash(digest)
    ensures LockFree(s, digest) <==> NobodyHolds(s, digest)
  {
    hide Valid, PartName, LockName, Matches, ValidHash, Separated, DigestsHold, Holding, PhaseOk;
    forall id | id in s.attempts && s.attempts[id].offer.digest == digest && Holding(s.attempts[id].phase)
      ensures !LockFree(s, digest)
    {
      HoldingArrived(s.attempts[id].phase);
      LockOfAttempt(h, s.store, s.attempts[id]);
    }
    if !LockFree(s, digest) {
      var i := s.store.names[LockName(digest)];
      assert Owns(s, i, s.locks[i]);
      HoldingArrived(s.attempts[s.locks[i]].phase);
      LockOfAttempt(h, s.store, s.attempts[s.locks[i]]);
      SameLockFile(s.store, digest, s.attempts[s.locks[i]].offer.digest);
    }
  }

  lemma LockOfAttempt(h: Hasher, s: Store, a: Attempt)
    requires PhaseOk(h, s, a) && !a.phase.Arrived?
    ensures LockName(a.offer.digest) in s.names && s.names[LockName(a.offer.digest)] == a.lock && ValidHash(a.offer.digest)
  {
    ValidDigest(a.offer);
  }

  lemma SameLockFile(s: Store, d: string, e: string)
    requires Separated(s) && ValidHash(d) && ValidHash(e) && LockName(d) in s.names && LockName(e) in s.names
    requires s.names[LockName(d)] == s.names[LockName(e)]
    ensures d == e
  {
    hide PartName, LockName, ValidHash;
    NamesApart(d, e);
    LongNames(d);
    LongNames(e);
  }

  /** The lock is refused exactly when another attempt on the same digest holds it. */
  lemma TryLockExactly(h: Hasher, s: State, id: nat)
    requires Inv(h, s) && id in s.attempts && s.attempts[id].phase.LockOpen?
    ensures Next(h, s, Act(id, TryLock)).Some? <==> NobodyHolds(s, s.attempts[id].offer.digest)
  {
    hide Valid, PartName, LockName, Matches, ValidHash, Separated, DigestsHold, Holding, PhaseOk, NobodyHolds;
    LockOfAttempt(h, s.store, s.attempts[id]);
    FreeExactly(h, s, s.attempts[id].offer.digest);
  }

  /**
   An attempt can stop at every point. That leaves all files as they are, gives back the lock if the
   attempt held it, and changes nothing for other digests.
   */
  lemma StopReleases(h: Hasher, s: State, id: nat)
    requires Inv(h, s) && id in s.attempts
    ensures Next(h, s, Stop(id)).Some?
    ensures var s' := Next(h, s, Stop(id)).value;
      && s'.store == s.store && s'.attempts == s.attempts - {id} && Inv(h, s')
      && (Holding(s.attempts[id].phase) ==> LockFree(s', s.attempts[id].offer.digest))
      && (forall d :: ValidHash(d) && d != s.attempts[id].offer.digest ==> (LockFree(s', d) <==> LockFree(s, d)))
  {
    hide Valid, PartName, LockName, Matches, ValidHash, Separated, DigestsHold, Holding, PhaseOk, Inv, LockFree;
    var a := s.attempts[id];
    var s' := Next(h, s, Stop(id)).value;
    StepKeepsInv(h, s, Stop(id));
    InvDigest(h, s, id);
    FreeExactly(h, s', a.offer.digest);
    if Holding(a.phase) {
      forall k | k in s'.attempts && s'.attempts[k].offer.digest == a.offer.digest ensures !Holding(s'.attempts[k].phase) {
        LockShared(h, s, id, k);
      }
    }
    forall d | ValidHash(d) && d != a.offer.digest ensures LockFree(s', d) <==> LockFree(s, d) {
      FreeExactly(h, s, d);
      FreeExactly(h, s', d);
      OthersHold(s, s', id, d);
    }
  }

  lemma InvDigest(h: Hasher, s: State, id: nat)
    requires Inv(h, s) && id in s.attempts
    ensures ValidHash(s.attempts[id].offer.digest)
  {
    AttemptDigest(h, s.store, s.attempts[id]);
  }

  lemma OthersHold(s: State, s': State, id: nat, d: string)
    requires id in s.attempts && s'.attempts == s.attempts - {id} && s.attempts[id].offer.digest != d
    ensures NobodyHolds(s', d) <==> NobodyHolds(s, d)
  {
    hide Holding;
    if NobodyHolds(s', d) {
      forall k | k in s.attempts && s.attempts[k].offer.digest == d ensures !Holding(s.attempts[k].phase) {
        assert k in s'.attempts;
      }
    }
  }

  /** Nothing changed but perhaps the lock file of the digest. */
  ghost predicate OnlyLock(s: Store, s': Store, digest: string) {
    forall n :: n != LockName(digest) ==> SameFile(s, s', n)
  }

  lemma OpenLockStep(h: Hasher, s: State, id: nat, a: Attempt, inode: nat) returns (s': State, b: Attempt)
    requires id in s.attempts && s.attempts[id] == a && a.phase.Arrived?
    requires FreshInode(s.store, inode) && inode !in s.locks && LockFree(s, a.offer.digest)
    ensures Next(h, s, Act(id, OpenLock(inode))) == Some(s') && s'.locks == s.locks && s'.attempts == s.attempts[id := b]
    ensures b.phase.LockOpen? && b.offer == a.offer && b.lock !in s'.locks
    ensures OnlyLock(s.store, s'.store, a.offer.digest)
  {
    hide PartName, LockName;
    var store := Opened(s.store, LockName(a.offer.digest), inode);
    b := a.(lock := store.names[LockName(a.offer.digest)], phase := LockOpen);
    s' := State(store, s.locks, s.attempts[id := b]);
    hide Do;
    Case(h, s.store, a, OpenLock(inode));
  }

  lemma TryLockStep(h: Hasher, s: State, id: nat, a: Attempt) returns (s': State, b: Attempt)
    requires id in s.attempts && s.attempts[id] == a && a.phase.LockOpen? && a.lock !in s.locks
    ensures Next(h, s, Act(id, TryLock)) == Some(s') && s'.store == s.store && s' == At(s', id, s'.store, b)
    ensures b == a.(phase := Locked) && b.lock in s'.locks && s'.locks[b.lock] == id
  {
    b := a.(phase := Locked);
    s' := State(s.store, s.locks[b.lock := id], s.attempts[id := b]);
    assert s'.attempts[id := b] == s'.attempts;
  }

  /** The offer arrives, the lock file is opened and the lock is taken. */
  lemma TakeLock(h: Hasher, s: State, id: nat, m: Manifest) returns (events: seq<Event>, s': State, a: Attempt)
    requires id !in s.attempts && Valid(m) && LockFree(s, m.digest)
    ensures Run(h, s, events, s') && s' == At(s', id, s'.store, a)
    ensures a.phase.Locked? && a.offer == m && a.lock in s'.locks && s'.locks[a.lock] == id
    ensures OnlyLock(s.store, s'.store, m.digest) && NoPayload(events)
  {
    hide Valid, PartName, LockName, Run, LockFree, At, Do, ValidHash, OnlyLock;
    var used := s.store.data.Keys + s.store.names.Values + s.locks.Keys;
    var inode := Unused(used);
    assert forall n :: n in s.store.names ==> s.store.names[n] in s.store.names.Values;
    var a0 := Attempt(m, 0, 0, [], Arrived);
    var s0 := s.(attempts := s.attempts[id := a0]);
    assert Next(h, s, Arrive(id, m)) == Some(s0);
    assert LockFree(s0, m.digest) by { SameLocks(s, s0, m.digest); }
    hide Next;
    var s1, a1 := OpenLockStep(h, s0, id, a0, inode);
    s', a := TryLockStep(h, s1, id, a1);
    RunOne(h, s, Arrive(id, m), s0);
    RunOne(h, s0, Act(id, OpenLock(inode)), s1);
    RunOne(h, s1, Act(id, TryLock), s');
    RunJoin(h, s, [Arrive(id, m)], s0, [Act(id, OpenLock(inode))], s1);
    RunJoin(h, s, [Arrive(id, m)] + [Act(id, OpenLock(inode))], s1, [Act(id, TryLock)], s');
    events := [Arrive(id, m)] + [Act(id, OpenLock(inode))] + [Act(id, TryLock)];
  }

  lemma SameLocks(s: State, s': State, digest: string)
    requires s'.store == s.store && s'.locks == s.locks && LockFree(s, digest)
    ensures LockFree(s', digest)
  {
  }

  lemma ReplyStep(h: Hasher, s: State, id: nat, a: Attempt)
    requires id in s.attempts && s.attempts[id] == a && a.phase.Published?
    ensures Next(h, s, Act(id, Reply)).Some?
    ensures var s' := Next(h, s, Act(id, Reply)).value;
      s'.store == s.store && id in s'.attempts && s'.attempts[id] == a.(phase := Replied)
  {
    hide Do;
    Case(h, s.store, a, Reply);
  }

  lemma OnlyLockFacts(s: Store, s': Store, digest: string)
    requires ValidHash(digest) && OnlyLock(s, s', digest)
    ensures digest !in s.names && Openable(s, digest) ==> digest !in s'.names && Openable(s', digest)
    ensures s'.Content(digest) == s.Content(digest) && (digest in s.names <==> digest in s'.names)
  {
    hide PartName, LockName, ValidHash;
    NamesApart(digest, digest);
    assert SameFile(s, s', digest) && SameFile(s, s', PartName(digest));
  }

  /**
   From every reachable state, whatever the partial file holds and whoever else is at work: when the
   digest is not yet published and no attempt on it holds the lock, a new attempt with an honest sender
   has a run to the end, by either way of publication, which publishes exactly the source, removes the
   partial name and sends the receipt.
   */
  lemma Recovers(h: Hasher, s: State, id: nat, m: Manifest, source: Bytes, link: bool) returns (events: seq<Event>, s': State)
    requires Inv(h, s) && NobodyHolds(s, m.digest)
    requires id !in s.attempts && Valid(m)
    requires m.digest !in s.store.names && Openable(s.store, m.digest)
    requires Describes(h, m, source) && BlocksPinned(h, source)
    ensures Run(h, s, events, s')
    ensures s'.store.Content(m.digest) == Some(source) && PartName(m.digest) !in s'.store.names
    ensures id in s'.attempts && s'.attempts[id].phase.Replied? && s'.attempts[id].offer == m
  {
    hide Valid, PartName, LockName, Run, Openable, Describes, BlocksPinned, Solo, LockFree, Next, Fill, Missing, Resize, Payload, PartOf, Inv, NobodyHolds, OnlyLock;
    DescribesCount(h, m, source);
    ValidDigest(m);
    FreeExactly(h, s, m.digest);
    var locking, s1, a := TakeLock(h, s, id, m);
    OnlyLockFacts(s.store, s1.store, m.digest);
    var part := PartOf(s1.store, m.digest);
    UninterruptedAttempt(h, m, source, part);
    var actions, store2, b := CarryThrough(h, s1.store, a, Payload(source, Missing(h, part, m), 0), link);
    SoloRuns(h, s1, id, s1.store, a, actions, store2, b);
    var s2 := At(s1, id, store2, b);
    RunJoin(h, s, locking, s1, Acts(id, actions), s2);
    ReplyStep(h, s2, id, b);
    s' := Next(h, s2, Act(id, Reply)).value;
    RunOne(h, s2, Act(id, Reply), s');
    RunJoin(h, s, locking + Acts(id, actions), s2, [Act(id, Reply)], s');
    events := locking + Acts(id, actions) + [Act(id, Reply)];
  }

  // The digest is already published.

  /** No event but the arrival of an offer and steps other than taking a block. */
  ghost predicate NoPayload(events: seq<Event>) {
    forall e :: e in events ==> e.Arrive? || (e.Act? && !e.action.TakeBlock?)
  }

  lemma NoPayloadJoin(locking: seq<Event>, id: nat, actions: seq<Action>)
    requires NoPayload(locking) && forall i :: 0 <= i < |actions| ==> !actions[i].TakeBlock?
    ensures NoPayload(locking + Acts(id, actions) + [Act(id, ConfirmDone)])
  {
  }

  /** A completed file of the offered size is read again and confirmed. */
  lemma ConfirmAll(h: Hasher, s: Store, a: Attempt, content: Bytes) returns (actions: seq<Action>, b: Attempt)
    requires a.phase.Locked? && s.Content(a.offer.digest) == Some(content)
    requires |content| == a.offer.size && h(content) == a.offer.digest
    ensures Solo(h, s, a, actions, s, b) && b.offer == a.offer && b.lock == a.lock
    ensures forall i :: 0 <= i < |actions| ==> !actions[i].TakeBlock?
    ensures b.phase.Verifying? && Do(h, s, b, ConfirmDone) == Some(Move(s, b.(phase := Replied)))
  {
    hide Do, Solo, ReadOn;
    var a1 := a.(phase := Verifying([]));
    b := a.(phase := Verifying(content));
    ReadWhole(content);
    Case(h, s, a, LookDone);
    Case(h, s, a1, ReadDone(|content|));
    Case(h, s, b, ConfirmDone);
    SoloOne(h, s, a, LookDone, s, a1);
    SoloOne(h, s, a1, ReadDone(|content|), s, b);
    SoloJoin(h, s, a, [LookDone], s, a1, [ReadDone(|content|)], s, b);
    actions := [LookDone] + [ReadDone(|content|)];
  }

  lemma ConfirmStep(h: Hasher, s: State, id: nat, a: Attempt)
    requires id in s.attempts && s.attempts[id] == a
    requires Do(h, s.store, a, ConfirmDone) == Some(Move(s.store, a.(phase := Replied)))
    ensures Next(h, s, Act(id, ConfirmDone)).Some?
    ensures var s' := Next(h, s, Act(id, ConfirmDone)).value;
      s'.store == s.store && id in s'.attempts && s'.attempts[id] == a.(phase := Replied)
  {
    hide Do;
  }

  lemma PublishedDigest(h: Hasher, s: State, digest: string)
    requires Inv(h, s) && ValidHash(digest) && s.store.Regular(digest)
    ensures h(s.store.data[s.store.names[digest]]) == digest
  {
    hide PhaseOk, Separated;
  }

  /**
   When the digest is published with the offered size and no attempt on it holds the lock, a new
   attempt has a run to the receipt that needs no payload and changes nothing but the lock file.
   */
  lemma Acknowledges(h: Hasher, s: State, id: nat, m: Manifest) returns (events: seq<Event>, s': State)
    requires Inv(h, s) && NobodyHolds(s, m.digest)
    requires id !in s.attempts && Valid(m)
    requires s.store.Regular(m.digest) && |s.store.data[s.store.names[m.digest]]| == m.size
    ensures Run(h, s, events, s') && OnlyLock(s.store, s'.store, m.digest)
    ensures NoPayload(events)
    ensures id in s'.attempts && s'.attempts[id].phase.Replied? && s'.attempts[id].offer == m
  {
    hide Valid, PartName, LockName, Run, Solo, LockFree, Next, NobodyHolds, OnlyLock, Do, Holding, Inv, NoPayload, Acts;
    ValidDigest(m);
    FreeExactly(h, s, m.digest);
    var content := s.store.data[s.store.names[m.digest]];
    PublishedDigest(h, s, m.digest);
    var locking, s1, a := TakeLock(h, s, id, m);
    OnlyLockFacts(s.store, s1.store, m.digest);
    var actions, b := ConfirmAll(h, s1.store, a, content);
    SoloRuns(h, s1, id, s1.store, a, actions, s1.store, b);
    var s2 := At(s1, id, s1.store, b);
    RunJoin(h, s, locking, s1, Acts(id, actions), s2);
    ConfirmStep(h, s2, id, b);
    s' := Next(h, s2, Act(id, ConfirmDone)).value;
    RunOne(h, s2, Act(id, ConfirmDone), s');
    RunJoin(h, s, locking + Acts(id, actions), s2, [Act(id, ConfirmDone)], s');
    events := locking + Acts(id, actions) + [Act(id, ConfirmDone)];
    NoPayloadJoin(locking, id, actions);
  }

  // However the attempts before it ended.

  /**
   From a directory between runs: after every run in which all attempts on a digest have stopped or
   replied, or have not tried the lock yet, a new attempt can take the lock.
   */
  lemma NextAttemptLocks(h: Hasher, s: State, events: seq<Event>, s1: State, id: nat, m: Manifest)
    returns (more: seq<Event>, s2: State)
    requires Init(h, s) && Run(h, s, events, s1)
    requires id !in s1.attempts && Valid(m)
    requires forall k :: k in s1.attempts && s1.attempts[k].offer.digest == m.digest ==>
      var p := s1.attempts[k].phase; p.Replied? || p.Arrived? || p.LockOpen?
    ensures Run(h, s, events + more, s2)
    ensures id in s2.attempts && s2.attempts[id].phase.Locked? && s2.attempts[id].offer == m
    ensures OnlyLock(s1.store, s2.store, m.digest)
  {
    hide Valid, PartName, LockName, Run, LockFree, Inv, OnlyLock, ValidHash, Separated, DigestsHold;
    RunSafe(h, s, events, s1) by { InitInv(h, s); }
    ValidDigest(m);
    FreeExactly(h, s1, m.digest);
    var a;
    more, s2, a := TakeLock(h, s1, id, m);
    RunJoin(h, s, events, s1, more, s2);
  }

  lemma InitInv(h: Hasher, s: State)
    requires Init(h, s)
    ensures Inv(h, s)
  {
    hide Separated, DigestsHold;
  }

  /** Every attempt on a digest can be made to stop; the files and the attempts on other digests stay. */
  lemma {:induction false} AllStop(h: Hasher, s: State, digest: string) returns (events: seq<Event>, s': State)
    requires Inv(h, s)
    ensures Run(h, s, events, s') && Inv(h, s') && s'.store == s.store
    ensures forall e :: e in events ==> e.Stop?
    ensures forall id :: id in s'.attempts ==> id in s.attempts && s'.attempts[id].offer.digest != digest
    decreases |s.attempts|
  {
    hide Inv, LockFree, Next;
    if id: nat :| id in s.attempts && s.attempts[id].offer.digest == digest {
      StopReleases(h, s, id);
      var s1 := Next(h, s, Stop(id)).value;
      assert s1.attempts.Keys == s.attempts.Keys - {id};
      var rest;
      rest, s' := AllStop(h, s1, digest);
      RunOne(h, s, Stop(id), s1);
      RunJoin(h, s, [Stop(id)], s1, rest, s');
      events := [Stop(id)] + rest;
    } else {
      events, s' := [], s;
    }
  }

  /**
   Crash and resume: from every reachable state, at whatever step the attempts on a digest are, let
   them all stop there. Then a new attempt with an honest sender has a run that publishes the source.
   */
  lemma CrashThenRecover(h: Hasher, s: State, id: nat, m: Manifest, source: Bytes, link: bool)
    returns (crash: seq<Event>, events: seq<Event>, s': State)
    requires Inv(h, s) && id !in s.attempts && Valid(m)
    requires m.digest !in s.store.names && Openable(s.store, m.digest)
    requires Describes(h, m, source) && BlocksPinned(h, source)
    ensures forall e :: e in crash ==> e.Stop?
    ensures Run(h, s, crash + events, s') && s'.store.Content(m.digest) == Some(source)
    ensures id in s'.attempts && s'.attempts[id].phase.Replied? && s'.attempts[id].offer == m
  {
    hide Valid, PartName, Run, Openable, Describes, BlocksPinned, Inv;
    var s1;
    crash, s1 := AllStop(h, s, m.digest);
    events, s' := Recovers(h, s1, id, m, source, link);
    RunJoin(h, s, crash, s1, events, s');
  }

  /** The block being written over the partial file, of which only the bytes marked `done` are there yet. */
  function Mixed(s: Store, a: Attempt, done: seq<bool>): Bytes
    requires InRange(s, a) && |done| == |a.phase.bytes|
  {
    var before, offset := s.data[a.part], a.phase.next * BLOCK;
    seq(|before|, i requires 0 <= i < |before| =>
      if offset <= i < offset + |a.phase.bytes| && done[i - offset] then a.phase.bytes[i - offset] else before[i])
  }

  lemma WritingFits(h: Hasher, s: State, id: nat)
    requires Inv(h, s) && id in s.attempts && s.attempts[id].phase.Writing?
    ensures var a := s.attempts[id];
      && InRange(s.store, a) && PartName(a.offer.digest) in s.store.names
      && s.store.names[PartName(a.offer.digest)] == a.part
  {
    hide Valid, PartName, LockName, Matches, ValidHash, Separated, DigestsHold, Holding, BlockCount;
    var a := s.attempts[id];
    ValidDigest(a.offer);
    SpliceTorn(s.store.data[a.part], a.offer.size, a.phase.next, a.phase.bytes,
               Splice(s.store.data[a.part], a.offer.size, a.phase.next, a.phase.bytes));
  }

  /** While a block is being written, a crash can leave any mixture of old and new bytes in its place. */
  lemma AnyTornWrite(h: Hasher, s: State, id: nat, done: seq<bool>) returns (events: seq<Event>, s': State)
    requires Inv(h, s) && id in s.attempts && s.attempts[id].phase.Writing?
    requires |done| == |s.attempts[id].phase.bytes|
    ensures InRange(s.store, s.attempts[id]) && Run(h, s, events, s') && id !in s'.attempts
    ensures s'.store.Content(PartName(s.attempts[id].offer.digest)) == Some(Mixed(s.store, s.attempts[id], done))
  {
    hide PartName, Run, Next, Inv, Mixed, InRange, LockFree, Do;
    WritingFits(h, s, id);
    var mixed := Mixed(s.store, s.attempts[id], done);
    var write := Act(id, WriteSome(mixed));
    var s1 := WriteEvent(h, s, id, done);
    StepKeepsInv(h, s, write);
    StopReleases(h, s1, id);
    s' := Next(h, s1, Stop(id)).value;
    RunOne(h, s, write, s1);
    RunOne(h, s1, Stop(id), s');
    RunJoin(h, s, [write], s1, [Stop(id)], s');
    events := [write] + [Stop(id)];
  }

  lemma MixedTorn(s: Store, a: Attempt, done: seq<bool>)
    requires InRange(s, a) && |done| == |a.phase.bytes|
    ensures Torn(s.data[a.part], Mixed(s, a, done), a.phase.next * BLOCK, a.phase.bytes)
  {
  }

  lemma WriteEvent(h: Hasher, s: State, id: nat, done: seq<bool>) returns (s': State)
    requires id in s.attempts && InRange(s.store, s.attempts[id]) && |done| == |s.attempts[id].phase.bytes|
    ensures Next(h, s, Act(id, WriteSome(Mixed(s.store, s.attempts[id], done)))) == Some(s') && s'.attempts == s.attempts
    ensures s'.store == s.store.(data := s.store.data[s.attempts[id].part := Mixed(s.store, s.attempts[id], done)])
  {
    hide Do, Torn, Mixed;
    var a := s.attempts[id];
    MixedTorn(s.store, a, done);
    Case(h, s.store, a, WriteSome(Mixed(s.store, a, done)));
    s' := Next(h, s, Act(id, WriteSome(Mixed(s.store, a, done)))).value;
    assert s.attempts[id := a] == s.attempts;
  }
}
