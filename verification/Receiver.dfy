/**
 One receive attempt: rehash the partial file, ask for the blocks that do not match, verify and
 write each one, check the whole file and publish it.
 */
module Receiver {
  import opened Common
  import opened Manifests
  import opened Publication

  /** Block `index` of a partial file is complete and has the offered digest. */
  predicate Matches(h: Hasher, part: Bytes, m: Manifest, index: nat)
    requires index < BlockCount(m.size) == |m.blocks|
  {
    index * BLOCK + Length(m.size, index) <= |part| && h(Block(part, m.size, index)) == m.blocks[index]
  }

  /** The resume map: 1 for every block that has to be sent. */
  function Missing(h: Hasher, part: Bytes, m: Manifest): (wanted: seq<nat>)
    requires BlockCount(m.size) == |m.blocks|
    ensures |wanted| == |m.blocks| && forall i :: 0 <= i < |wanted| ==> wanted[i] <= 1
  {
    seq(|m.blocks|, i requires 0 <= i < |m.blocks| => if Matches(h, part, m, i) then 0 else 1)
  }

  /** ftruncate: cut, or extend with zeros. */
  function Resize(content: Bytes, size: nat): (r: Bytes)
    ensures |r| == size
    ensures forall i :: 0 <= i < size ==> r[i] == if i < |content| then content[i] else 0
  {
    if size <= |content| then content[..size] else content + seq(size - |content|, _ => 0)
  }

  function Splice(content: Bytes, size: nat, index: nat, bytes: Bytes): (r: Bytes)
    requires |content| == size && index < BlockCount(size) && |bytes| == Length(size, index)
    ensures |r| == size
  {
    content[..index * BLOCK] + bytes + content[index * BLOCK + |bytes|..]
  }

  datatype Filling = Filled(content: Bytes, rest: Bytes) | Broken(content: Bytes, error: string)

  /** Cutting the payload into the requested blocks, from block `index` on. */
  function Fill(h: Hasher, m: Manifest, wanted: seq<nat>, content: Bytes, payload: Bytes, index: nat): (f: Filling)
    requires |wanted| == |m.blocks| == BlockCount(m.size) && |content| == m.size && index <= |wanted|
    ensures |f.content| == m.size
    decreases |wanted| - index
  {
    if index == |wanted| then Filled(content, payload)
    else if wanted[index] == 0 then Fill(h, m, wanted, content, payload, index + 1)
    else
      var n := Length(m.size, index);
      if |payload| < n then Broken(content, "stream ended")
      else if h(payload[..n]) != m.blocks[index] then Broken(content, "block integrity failure")
      else Fill(h, m, wanted, Splice(content, m.size, index, payload[..n]), payload[n..], index + 1)
  }

  function Zeroes(n: nat): (z: seq<nat>)
    ensures |z| == n && forall i :: 0 <= i < n ==> z[i] == 0
  {
    seq(n, _ => 0)
  }

  function PartOf(s: Store, digest: string): Bytes {
    if s.Regular(PartName(digest)) then s.data[s.names[PartName(digest)]] else []
  }

  /** Everything that must hold before the receiver asks for payload on the fresh path. */
  predicate Ready(h: Hasher, s: Store, m: Manifest, quota: nat, locked: bool, space: nat) {
    && Valid(m) && m.size <= quota && !locked
    && m.digest !in s.names
    && (PartName(m.digest) in s.names ==> s.Regular(PartName(m.digest)))
    && Sum(Selected(m.size, Missing(h, PartOf(s, m.digest), m), 1)) <= space
  }

  /** The already-completed path: the destination is there and verifies. */
  predicate Completed(h: Hasher, s: Store, m: Manifest, quota: nat, locked: bool) {
    && Valid(m) && m.size <= quota && !locked
    && s.Regular(m.digest)
    && |s.data[s.names[m.digest]]| == m.size
    && h(s.data[s.names[m.digest]]) == m.digest
  }

  /** Names and contents of everything that does not belong to the digest are as before. */
  predicate Untouched(s: Store, s': Store, digest: string) {
    && (forall n :: n in s.names && n != PartName(digest) && n != digest ==>
          n in s'.names && s'.names[n] == s.names[n])
    && (forall n :: n in s'.names && n !in s.names ==> n == digest || n == PartName(digest) || n == LockName(digest))
    && (forall i :: i in s.data && (PartName(digest) in s.names ==> i != s.names[PartName(digest)]) ==>
          i in s'.data && s'.data[i] == s.data[i])
  }

  /** The exact outcome of the fresh path, from the directory before to the directory after. */
  ghost predicate FreshOutcome(h: Hasher, s: Store, s': Store, m: Manifest, peer: seq<nat> -> Bytes, ok: bool, wanted: seq<nat>)
    requires |m.blocks| == BlockCount(m.size)
  {
    var part := PartOf(s, m.digest);
    var f := Fill(h, m, Missing(h, part, m), Resize(part, m.size), peer(Missing(h, part, m)), 0);
    && wanted == Missing(h, part, m)
    && (ok <==> f.Filled? && f.rest == [] && h(f.content) == m.digest)
    && (ok ==> s'.Content(m.digest) == Some(f.content) && PartName(m.digest) !in s'.names)
    && (!ok ==> m.digest !in s'.names && s'.Content(PartName(m.digest)) == Some(f.content))
  }

  /**
   The receiver against a peer that answers a resume map with some bytes and then closes its
   direction. `locked` says that another attempt holds the digest's lock, `space` is the free space.
   The result names the published file; `answer` is the resume map, if one was sent. It is sent exactly when
   the offer is valid, within the quota and not locked, and either the file is there already and verifies, or
   its place is free and there is room for the missing blocks. Otherwise nothing received is lost.
   */
  method Receive(dir: Directory, h: Hasher, m: Manifest, quota: nat, locked: bool, space: nat,
                 link: bool, peer: seq<nat> -> Bytes)
    returns (r: Result<string, string>, answer: Option<seq<nat>>)
    requires dir.Valid()
    modifies dir
    ensures dir.Valid()
    ensures Untouched(old(dir.View()), dir.View(), m.digest)
    ensures answer.Some? <==>
      && Valid(m) && m.size <= quota && !locked
      && (old(m.digest in dir.names) ==>
            && old(dir.names[m.digest] in dir.data)
            && |old(dir.data[dir.names[m.digest]])| == m.size && h(old(dir.data[dir.names[m.digest]])) == m.digest)
      && (old(m.digest !in dir.names) ==>
            && old(PartName(m.digest) in dir.names ==> dir.names[PartName(m.digest)] in dir.data)
            && Sum(Selected(m.size, Missing(h, PartOf(old(dir.View()), m.digest), m), 1)) <= space)
    ensures answer.None? ==> r.Err? && PartOf(dir.View(), m.digest) == PartOf(old(dir.View()), m.digest)
    ensures answer.None? && old(m.digest !in dir.names) ==> m.digest !in dir.names
    ensures !Valid(m) || m.size > quota ==> dir.View() == old(dir.View())
    ensures r.Ok? ==> m.version == 3 && m.blockSize == 1024 * 1024 && m.size <= 262144 * (1024 * 1024) && m.size <= quota && !locked
    ensures r.Ok? ==> r.value == m.digest && dir.View().Regular(m.digest)
    ensures r.Ok? ==> h(dir.View().Content(m.digest).value) == m.digest
    ensures old(m.digest in dir.names) ==> m.digest in dir.names && dir.names[m.digest] == old(dir.names)[m.digest]
    ensures old(m.digest in dir.names) ==> dir.View().Content(m.digest) == old(dir.View().Content(m.digest))
    ensures old(m.digest in dir.names) ==>
      (r.Ok? <==> Completed(h, old(dir.View()), m, quota, locked) && peer(Zeroes(|m.blocks|)) == [])
    ensures old(m.digest !in dir.names) && r.Ok? ==> Ready(h, old(dir.View()), m, quota, locked, space)
    ensures Ready(h, old(dir.View()), m, quota, locked, space) ==>
      answer.Some? && FreshOutcome(h, old(dir.View()), dir.View(), m, peer, r.Ok?, answer.value)
    ensures Completed(h, old(dir.View()), m, quota, locked) ==> answer == Some(Zeroes(|m.blocks|))
  {
    hide Fill, Missing, Resize, PartName, LockName, ValidHash, Selected, Sum, Utf8Length, Control;
    answer := None;
    if !Valid(m) { return Err("invalid manifest"), None; }
    NamesApart(m.digest, m.digest);
    if m.size > quota { return Err("receiver quota exceeded"), None; }
    ghost var s0 := dir.View();
    var lock := dir.OpenOrCreate(LockName(m.digest));
    ghost var s1 := dir.View();
    LockFrame(s0, s1, m, lock);
    if locked { return Err("lock held"), None; }
    if m.digest in dir.names {
      r, answer := Acknowledge(dir, h, m, peer);
      return;
    }
    ghost var inode, content;
    r, answer, inode, content := ReceiveFresh(dir, h, m, space, link, peer);
    if Openable(s1, m.digest) {
      FinishFrame(s1, m.digest, inode, content, r.Ok?);
      if answer.None? { FinishPart(s1, m.digest, inode, content); }
    }
    UntouchedStep(s0, s1, dir.View(), m.digest);
  }

  /** Nothing but the lock file is new after opening the lock. */
  lemma LockFrame(s: Store, s1: Store, m: Manifest, lock: nat)
    requires s1 == Opened(s, LockName(m.digest), lock)
    requires LockName(m.digest) !in s.names ==> lock !in s.data && forall n :: n in s.names ==> s.names[n] != lock
    requires LockName(m.digest) != m.digest && LockName(m.digest) != PartName(m.digest)
    ensures Untouched(s, s1, m.digest) && PartOf(s1, m.digest) == PartOf(s, m.digest)
    ensures m.digest in s1.names <==> m.digest in s.names
    ensures PartName(m.digest) in s1.names <==> PartName(m.digest) in s.names
    ensures m.digest in s.names ==> s1.names[m.digest] == s.names[m.digest]
    ensures s1.Content(m.digest) == s.Content(m.digest)
    ensures s1.Regular(m.digest) == s.Regular(m.digest) && s1.Regular(PartName(m.digest)) == s.Regular(PartName(m.digest))
    ensures PartName(m.digest) in s.names ==> s1.names[PartName(m.digest)] == s.names[PartName(m.digest)]
  {
    hide PartName, LockName;
  }

  predicate Openable(s: Store, digest: string) {
    PartName(digest) in s.names ==> s.Regular(PartName(digest))
  }

  /** The directory a fresh attempt leaves: the partial file holds `content`, under the digest name if published. */
  function Finished(s: Store, digest: string, inode: nat, content: Bytes, published: bool): Store {
    var before := Opened(s, PartName(digest), inode);
    Store(if published then (before.names - {PartName(digest)})[digest := inode] else before.names,
          before.data[inode := content])
  }

  predicate PartInode(s: Store, digest: string, inode: nat) {
    if PartName(digest) in s.names then inode == s.names[PartName(digest)]
    else inode !in s.data && forall n :: n in s.names ==> s.names[n] != inode
  }

  lemma FinishFrame(s: Store, digest: string, inode: nat, content: Bytes, published: bool)
    requires digest !in s.names && PartName(digest) != digest && Openable(s, digest) && PartInode(s, digest, inode)
    ensures var s' := Finished(s, digest, inode, content, published);
      && Untouched(s, s', digest)
      && s'.Content(if published then digest else PartName(digest)) == Some(content)
      && (published ==> PartName(digest) !in s'.names)
      && (!published ==> digest !in s'.names)
  {
    hide PartName, LockName;
  }

  lemma FinishPart(s: Store, digest: string, inode: nat, content: Bytes)
    requires digest !in s.names && PartName(digest) != digest && Openable(s, digest) && PartInode(s, digest, inode)
    ensures PartOf(Finished(s, digest, inode, content, false), digest) == content
  {
    hide PartName, LockName;
  }

  lemma UntouchedStep(s0: Store, s1: Store, s2: Store, digest: string)
    requires Untouched(s0, s1, digest) && Untouched(s1, s2, digest)
    requires PartName(digest) in s0.names <==> PartName(digest) in s1.names
    requires PartName(digest) in s0.names ==> s0.names[PartName(digest)] == s1.names[PartName(digest)]
    ensures Untouched(s0, s2, digest)
  {
    hide PartName, LockName;
  }

  /** The path without a completed file: open or create the partial file, scan, fill, check, publish. */
  method ReceiveFresh(dir: Directory, h: Hasher, m: Manifest, space: nat, link: bool, peer: seq<nat> -> Bytes)
    returns (r: Result<string, string>, answer: Option<seq<nat>>, ghost inode: nat, ghost content: Bytes)
    requires dir.Valid() && |m.blocks| == BlockCount(m.size)
    requires m.digest !in dir.names && PartName(m.digest) != m.digest
    modifies dir
    ensures dir.Valid()
    ensures !Openable(old(dir.View()), m.digest) ==> r.Err? && answer.None? && dir.View() == old(dir.View())
    ensures Openable(old(dir.View()), m.digest) ==>
      && PartInode(old(dir.View()), m.digest, inode)
      && dir.View() == Finished(old(dir.View()), m.digest, inode, content, r.Ok?)
      && var part := PartOf(old(dir.View()), m.digest);
         if Sum(Selected(m.size, Missing(h, part, m), 1)) > space then r.Err? && answer.None? && content == part
         else answer == Some(Missing(h, part, m)) && FillOutcome(h, m, part, peer, r.Ok?, content)
    ensures r.Ok? ==> r.value == m.digest && h(content) == m.digest
  {
    hide Fill, Missing, Resize, PartName, LockName, ValidHash, Selected, Sum, Valid;
    var partial := PartName(m.digest);
    inode, content, answer := 0, [], None;
    if partial in dir.names && dir.names[partial] !in dir.data {
      return Err("invalid partial file"), None, inode, content;
    }
    var file := dir.OpenOrCreate(partial);
    inode := file;
    var part := dir.data[file];
    content := part;
    assert part == old(PartOf(dir.View(), m.digest));
    var wanted := Scan(h, m, part);
    var required := Total(m.size, wanted, 1);
    ghost var before := dir.View();
    assert before.data == before.data[inode := part];
    if space < required { return Err("insufficient free space"), None, inode, content; }
    answer := Some(wanted);
    r, content := FillAndPublish(dir, file, h, m, wanted, link, peer(wanted));
  }

  ghost predicate FillOutcome(h: Hasher, m: Manifest, part: Bytes, peer: seq<nat> -> Bytes, ok: bool, content: Bytes)
    requires |m.blocks| == BlockCount(m.size)
  {
    var f := Fill(h, m, Missing(h, part, m), Resize(part, m.size), peer(Missing(h, part, m)), 0);
    content == f.content && (ok <==> f.Filled? && f.rest == [] && h(f.content) == m.digest)
  }

  /** From set_len on: size the file, take the requested blocks, check the whole, publish. */
  method FillAndPublish(dir: Directory, inode: nat, h: Hasher, m: Manifest, wanted: seq<nat>, link: bool, payload: Bytes)
    returns (r: Result<string, string>, ghost content: Bytes)
    requires dir.Valid() && inode in dir.data && |wanted| == |m.blocks| == BlockCount(m.size)
    requires PartName(m.digest) in dir.names && dir.names[PartName(m.digest)] == inode
    requires m.digest !in dir.names
    modifies dir
    ensures dir.Valid()
    ensures var f := Fill(h, m, wanted, Resize(old(dir.data[inode]), m.size), payload, 0);
      content == f.content && (r.Ok? <==> f.Filled? && f.rest == [] && h(f.content) == m.digest)
    ensures dir.data == old(dir.data)[inode := content]
    ensures dir.names == if r.Ok? then (old(dir.names) - {PartName(m.digest)})[m.digest := inode] else old(dir.names)
    ensures r.Ok? ==> r.value == m.digest
  {
    hide Fill, Resize, PartName, Valid;
    dir.data := dir.data[inode := Resize(dir.data[inode], m.size)];
    var rest;
    r, rest := Collect(dir, inode, h, m, wanted, payload);
    content := dir.data[inode];
    if r.Err? { return; }
    if rest != [] { return Err("unexpected trailing payload"), content; }
    if h(dir.data[inode]) != m.digest { return Err("whole-file integrity failure"), content; }
    var published;
    if link {
      published := dir.PublishLink(PartName(m.digest), m.digest);
    } else {
      published := dir.PublishRename(PartName(m.digest), m.digest);
    }
    r := Ok(m.digest);
  }

  /** Verify the completed file again and acknowledge it without asking for payload. */
  method Acknowledge(dir: Directory, h: Hasher, m: Manifest, peer: seq<nat> -> Bytes)
    returns (r: Result<string, string>, answer: Option<seq<nat>>)
    requires m.digest in dir.names
    ensures answer.None? ==> r.Err?
    ensures answer == if dir.View().Regular(m.digest) && |dir.data[dir.names[m.digest]]| == m.size
      && h(dir.data[dir.names[m.digest]]) == m.digest then Some(Zeroes(|m.blocks|)) else None
    ensures r.Ok? <==> (dir.names[m.digest] in dir.data && |dir.data[dir.names[m.digest]]| == m.size
      && h(dir.data[dir.names[m.digest]]) == m.digest && peer(Zeroes(|m.blocks|)) == [])
    ensures r.Ok? ==> r.value == m.digest
  {
    if dir.names[m.digest] !in dir.data { return Err("invalid completed file"), None; }
    var content := dir.data[dir.names[m.digest]];
    if |content| != m.size || h(content) != m.digest { return Err("completed destination integrity mismatch"), None; }
    answer := Some(Zeroes(|m.blocks|));
    if peer(Zeroes(|m.blocks|)) != [] { return Err("unexpected duplicate payload"), answer; }
    r := Ok(m.digest);
  }

  /** Rehash every block of the existing file that is complete. */
  method Scan(h: Hasher, m: Manifest, part: Bytes) returns (wanted: seq<nat>)
    requires |m.blocks| == BlockCount(m.size)
    ensures wanted == Missing(h, part, m)
  {
    hide Length, BlockCount;
    var missing := new nat[|m.blocks|](i => 1);
    var buffer := new Byte[BLOCK](i => 0);
    for index := 0 to |m.blocks|
      invariant forall i :: 0 <= i < index ==> missing[i] == if Matches(h, part, m, i) then 0 else 1
      invariant forall i :: index <= i < |m.blocks| ==> missing[i] == 1
    {
      var length := Length(m.size, index);
      if |part| >= index * BLOCK + length {
        ReadBlock(part, m.size, index, buffer);
        if h(buffer[..length]) == m.blocks[index] {
          missing[index] := 0;
        }
      }
    }
    wanted := missing[..];
  }

  /** Total length of the blocks whose map entry is `bit`. */
  method Total(size: nat, wanted: seq<nat>, bit: nat) returns (total: nat)
    requires |wanted| == BlockCount(size)
    ensures total == Sum(Selected(size, wanted, bit))
  {
    total := 0;
    var ls := Selected(size, wanted, bit);
    for i := 0 to |wanted|
      invariant total == Sum(ls[..i])
    {
      if wanted[i] == bit { total := total + Length(size, i); }
      assert ls[..i + 1] == ls[..i] + [ls[i]];
      SumSnoc(ls[..i], ls[i]);
    }
    assert ls[..|wanted|] == ls;
  }

  /** The receive loop: verify each block before it is written. */
  method Collect(dir: Directory, inode: nat, h: Hasher, m: Manifest, wanted: seq<nat>, payload: Bytes)
    returns (r: Result<string, string>, rest: Bytes)
    requires dir.Valid() && inode in dir.data && |dir.data[inode]| == m.size
    requires |wanted| == |m.blocks| == BlockCount(m.size)
    modifies dir`data
    ensures dir.Valid() && inode in dir.data
    ensures dir.data == old(dir.data)[inode := dir.data[inode]]
    ensures var f := Fill(h, m, wanted, old(dir.data[inode]), payload, 0);
      && dir.data[inode] == f.content
      && (r.Ok? <==> f.Filled?)
      && (r.Ok? ==> rest == f.rest && r.value == m.digest)
  {
    hide Length, BlockCount, Splice, Block, Fill;
    rest := payload;
    var file := dir.data[inode];
    ghost var goal := Fill(h, m, wanted, dir.data[inode], payload, 0);
    for index := 0 to |wanted|
      invariant |file| == m.size && dir.data == old(dir.data)[inode := file]
      invariant Fill(h, m, wanted, file, rest, index) == goal
    {
      FillUnfold(h, m, wanted, file, rest, index);
      if wanted[index] == 0 { continue; }
      var n := Length(m.size, index);
      if |rest| < n { return Err("stream ended"), rest; }
      var bytes := rest[..n];
      rest := rest[n..];
      if h(bytes) != m.blocks[index] { return Err("block integrity failure"), rest; }
      file := Splice(file, m.size, index, bytes);
      dir.data := dir.data[inode := file];
    }
    FillDone(h, m, wanted, file, rest);
    r := Ok(m.digest);
  }

  lemma FillUnfold(h: Hasher, m: Manifest, wanted: seq<nat>, content: Bytes, payload: Bytes, index: nat)
    requires |wanted| == |m.blocks| == BlockCount(m.size) && |content| == m.size && index < |wanted|
    ensures Fill(h, m, wanted, content, payload, index) == (
      var n := Length(m.size, index);
      if wanted[index] == 0 then Fill(h, m, wanted, content, payload, index + 1)
      else if |payload| < n then Broken(content, "stream ended")
      else if h(payload[..n]) != m.blocks[index] then Broken(content, "block integrity failure")
      else Fill(h, m, wanted, Splice(content, m.size, index, payload[..n]), payload[n..], index + 1))
  {
  }

  lemma FillDone(h: Hasher, m: Manifest, wanted: seq<nat>, content: Bytes, payload: Bytes)
    requires |wanted| == |m.blocks| == BlockCount(m.size) && |content| == m.size
    ensures Fill(h, m, wanted, content, payload, |wanted|) == Filled(content, payload)
  {
  }

  // What an honest sender achieves.

  /** The blocks a resume map asks for, in ascending order and without extra framing. */
  function Payload(source: Bytes, wanted: seq<nat>, index: nat): Bytes
    requires |wanted| == BlockCount(|source|) && index <= |wanted|
    decreases |wanted| - index
  {
    if index == |wanted| then []
    else (if wanted[index] == 0 then [] else Block(source, |source|, index)) + Payload(source, wanted, index + 1)
  }

  lemma {:induction false} PayloadLength(source: Bytes, wanted: seq<nat>, index: nat)
    requires |wanted| == BlockCount(|source|) && index <= |wanted|
    requires forall i :: 0 <= i < |wanted| ==> wanted[i] <= 1
    ensures |Payload(source, wanted, index)| == Sum(Selected(|source|, wanted, 1)[index..])
    decreases |wanted| - index
  {
    if index < |wanted| {
      PayloadLength(source, wanted, index + 1);
      var ls := Selected(|source|, wanted, 1);
      assert ls[index..][0] == ls[index] && ls[index..][1..] == ls[index + 1..];
    }
  }

  /** No other content of the same length shares the digest of b. */
  ghost predicate Pinned(h: Hasher, b: Bytes) {
    forall x: Bytes :: |x| == |b| && h(x) == h(b) ==> x == b
  }

  ghost predicate BlocksPinned(h: Hasher, source: Bytes) {
    forall i: nat :: i < BlockCount(|source|) ==> Pinned(h, Block(source, |source|, i))
  }

  /**
   What a resumed transfer asks for, collisions apart: exactly the blocks whose bytes the partial file does
   not have in their place, whatever else it holds.
   */
  lemma ResumeExactly(h: Hasher, m: Manifest, source: Bytes, part: Bytes, index: nat)
    requires Describes(h, m, source) && BlocksPinned(h, source) && index < BlockCount(|source|)
    ensures |Missing(h, part, m)| == BlockCount(|source|)
    ensures var from, to := index * BLOCK, index * BLOCK + Length(|source|, index);
      && (Missing(h, part, m)[index] == 0 <==> to <= |part| && part[from..to] == source[from..to])
      && (Missing(h, part, m)[index] == 1 <==> to > |part| || part[from..to] != source[from..to])
  {
    hide BlockCount, Length;
    assert Pinned(h, Block(source, |source|, index));
  }

  /** Blocks from `index` on that need not be sent already agree with the source. */
  predicate Agrees(content: Bytes, source: Bytes, wanted: seq<nat>, index: nat)
    requires |content| == |source| && |wanted| == BlockCount(|source|) && index <= |wanted|
  {
    && content[..Min(index * BLOCK, |source|)] == source[..Min(index * BLOCK, |source|)]
    && forall i :: index <= i < |wanted| && wanted[i] == 0 ==> Block(content, |source|, i) == Block(source, |source|, i)
  }

  lemma GrowPrefix(content: Bytes, source: Bytes, index: nat)
    requires |content| == |source| && index < BlockCount(|source|)
    requires content[..index * BLOCK] == source[..index * BLOCK]
    requires Block(content, |source|, index) == Block(source, |source|, index)
    ensures content[..Min((index + 1) * BLOCK, |source|)] == source[..Min((index + 1) * BLOCK, |source|)]
  {
    var a, b := index * BLOCK, Min((index + 1) * BLOCK, |source|);
    assert b == a + Length(|source|, index);
    assert content[..b] == content[..a] + content[a..b];
    assert source[..b] == source[..a] + source[a..b];
  }

  lemma SpliceBlocks(content: Bytes, size: nat, index: nat, bytes: Bytes, other: nat)
    requires |content| == size && index < BlockCount(size) && |bytes| == Length(size, index)
    requires other < BlockCount(size)
    ensures Block(Splice(content, size, index, bytes), size, other)
         == if other == index then bytes else Block(content, size, other)
  {
    var r := Splice(content, size, index, bytes);
    var from, to := other * BLOCK, other * BLOCK + Length(size, other);
    if other < index {
      assert to <= index * BLOCK;
      assert r[from..to] == content[from..to];
    } else if other > index {
      assert index * BLOCK + |bytes| <= from;
      assert r[from..to] == content[from..to];
    } else {
      assert r[from..to] == bytes;
    }
  }

  /** A block that is not requested and already agrees extends the finished prefix. */
  lemma SkipAgrees(content: Bytes, source: Bytes, wanted: seq<nat>, index: nat)
    requires |content| == |source| && |wanted| == BlockCount(|source|) && index < |wanted|
    requires Agrees(content, source, wanted, index) && wanted[index] == 0
    ensures Agrees(content, source, wanted, index + 1)
  {
    GrowPrefix(content, source, index);
  }

  /** So does a requested block, once the source block is written in its place. */
  lemma WriteAgrees(content: Bytes, source: Bytes, wanted: seq<nat>, index: nat)
    requires |content| == |source| && |wanted| == BlockCount(|source|) && index < |wanted|
    requires Agrees(content, source, wanted, index)
    ensures Agrees(Splice(content, |source|, index, Block(source, |source|, index)), source, wanted, index + 1)
  {
    hide Block;
    var b := Block(source, |source|, index);
    var next := Splice(content, |source|, index, b);
    forall i | index <= i < |wanted| ensures Block(next, |source|, i) == if i == index then b else Block(content, |source|, i) {
      SpliceBlocks(content, |source|, index, b, i);
    }
    assert next[..index * BLOCK] == content[..index * BLOCK];
    GrowPrefix(next, source, index);
  }

  lemma {:induction false} FillHonest(h: Hasher, m: Manifest, source: Bytes, wanted: seq<nat>, content: Bytes, index: nat)
    requires Describes(h, m, source) && |content| == m.size
    requires |wanted| == |m.blocks| && index <= |wanted|
    requires forall i :: 0 <= i < |wanted| ==> wanted[i] <= 1
    requires Agrees(content, source, wanted, index)
    ensures Fill(h, m, wanted, content, Payload(source, wanted, index), index) == Filled(source, [])
    decreases |wanted| - index
  {
    hide Agrees, Block, Splice, Length, BlockCount;
    if index == |wanted| {
      AgreesAll(content, source, wanted);
    } else if wanted[index] == 0 {
      SkipAgrees(content, source, wanted, index);
      assert Payload(source, wanted, index) == Payload(source, wanted, index + 1);
      FillHonest(h, m, source, wanted, content, index + 1);
    } else {
      var b, rest := Block(source, |source|, index), Payload(source, wanted, index + 1);
      WriteAgrees(content, source, wanted, index);
      assert (b + rest)[..|b|] == b && (b + rest)[|b|..] == rest;
      FillHonest(h, m, source, wanted, Splice(content, m.size, index, b), index + 1);
    }
  }

  lemma AgreesAll(content: Bytes, source: Bytes, wanted: seq<nat>)
    requires |content| == |source| && |wanted| == BlockCount(|source|)
    requires Agrees(content, source, wanted, |wanted|)
    ensures content == source
  {
    assert content[..|source|] == content && source[..|source|] == source;
  }

  lemma ResizeKeepsBlocks(part: Bytes, size: nat, index: nat)
    requires index < BlockCount(size) && index * BLOCK + Length(size, index) <= |part|
    ensures Block(Resize(part, size), size, index) == Block(part, size, index)
  {
  }

  /** After the scan and set_len, every block that is not requested is the source block. */
  lemma ScanAgrees(h: Hasher, m: Manifest, source: Bytes, part: Bytes)
    requires Describes(h, m, source) && BlocksPinned(h, source)
    ensures Agrees(Resize(part, m.size), source, Missing(h, part, m), 0)
  {
    var wanted, content := Missing(h, part, m), Resize(part, m.size);
    forall i | 0 <= i < |wanted| && wanted[i] == 0
      ensures Block(content, |source|, i) == Block(source, |source|, i)
    {
      ResizeKeepsBlocks(part, m.size, i);
      assert Pinned(h, Block(source, |source|, i));
    }
  }

  /**
   From any partial file, one uninterrupted attempt with an unchanged source rebuilds exactly the
   source, and is sent exactly the blocks that did not match.
   */
  lemma UninterruptedAttempt(h: Hasher, m: Manifest, source: Bytes, part: Bytes)
    requires Describes(h, m, source) && BlocksPinned(h, source)
    ensures var wanted := Missing(h, part, m);
      && Fill(h, m, wanted, Resize(part, m.size), Payload(source, wanted, 0), 0) == Filled(source, [])
      && |Payload(source, wanted, 0)| == Sum(Selected(m.size, wanted, 1))
      && |Payload(source, wanted, 0)| + Sum(Selected(m.size, wanted, 0)) == |source|
  {
    var wanted, content := Missing(h, part, m), Resize(part, m.size);
    ScanAgrees(h, m, source, part);
    FillHonest(h, m, source, wanted, content, 0);
    PayloadLength(source, wanted, 0);
    assert Selected(m.size, wanted, 1)[0..] == Selected(m.size, wanted, 1);
    Accounting(m.size, wanted);
  }

  /** Receiving from an honest sender with an unchanged source publishes exactly the source. */
  lemma HonestDelivery(h: Hasher, s: Store, s': Store, m: Manifest, source: Bytes, peer: seq<nat> -> Bytes,
                       ok: bool, wanted: seq<nat>)
    requires Describes(h, m, source) && BlocksPinned(h, source)
    requires FreshOutcome(h, s, s', m, peer, ok, wanted)
    requires peer(wanted) == Payload(source, wanted, 0)
    ensures ok && s'.Content(m.digest) == Some(source)
  {
    UninterruptedAttempt(h, m, source, PartOf(s, m.digest));
  }
}
