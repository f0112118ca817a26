/**
 The receiver's directory: names of inodes and the contents of regular files. Publication moves a
 verified partial file to its digest name and never replaces what is there.
 */
module Publication {
  import opened Common
  import opened Manifests

  /** A name whose inode has no content is a directory, symbolic link or other special file. */
  datatype Store = Store(names: map<string, nat>, data: map<nat, Bytes>) {
    predicate Regular(name: string) {
      name in names && names[name] in data
    }

    function Content(name: string): (c: Option<Bytes>) {
      if Regular(name) then Some(data[names[name]]) else None
    }
  }

  function PartName(digest: string): string {
    digest + ".part"
  }

  function LockName(digest: string): string {
    digest + ".lock"
  }

  /** The three names of a digest are distinct, and differ from every name of another digest. */
  lemma NamesApart(d: string, e: string)
    requires ValidHash(d) && ValidHash(e)
    ensures PartName(d) != LockName(e) && PartName(d) != e && LockName(d) != e
    ensures PartName(d) == PartName(e) ==> d == e
    ensures LockName(d) == LockName(e) ==> d == e
  {
    assert |PartName(d)| == |LockName(e)| == 69;
    assert PartName(d)[65] == 'p' && LockName(e)[65] == 'l';
    assert PartName(d)[..64] == d && PartName(e)[..64] == e;
    assert LockName(d)[..64] == d && LockName(e)[..64] == e;
  }

  // The system calls.

  /** renameat2 with RENAME_NOREPLACE. */
  function Rename(s: Store, source: string, destination: string): Result<Store, string> {
    if source !in s.names then Err("no such file")
    else if destination in s.names then Err("file exists")
    else Ok(s.(names := (s.names - {source})[destination := s.names[source]]))
  }

  function HardLink(s: Store, source: string, destination: string): Result<Store, string> {
    if source !in s.names then Err("no such file")
    else if destination in s.names then Err("file exists")
    else Ok(s.(names := s.names[destination := s.names[source]]))
  }

  function RemoveFile(s: Store, name: string): Result<Store, string> {
    if name !in s.names then Err("no such file") else Ok(s.(names := s.names - {name}))
  }

  /** The two publication variants end in the same directory or fail alike. */
  lemma VariantsAgree(s: Store, source: string, destination: string)
    ensures Rename(s, source, destination).Ok? <==> HardLink(s, source, destination).Ok?
    ensures HardLink(s, source, destination).Ok? ==>
      RemoveFile(HardLink(s, source, destination).value, source) == Rename(s, source, destination)
  {
    if HardLink(s, source, destination).Ok? {
      var linked := HardLink(s, source, destination).value;
      assert linked.names - {source} == (s.names - {source})[destination := s.names[source]];
    }
  }

  /** open with create and without truncate; `inode` is the one allocated for a new file. */
  function Opened(s: Store, name: string, inode: nat): Store {
    if name in s.names then s else Store(s.names[name := inode], s.data[inode := []])
  }

  class Directory {
    var names: map<string, nat>
    var data: map<nat, Bytes>
    var nextInode: nat

    function View(): Store
      reads this
    {
      Store(names, data)
    }

    /** Inodes are allocated upwards. Names may share one, as they do after a crash between link and unlink. */
    predicate Valid()
      reads this
    {
      && (forall n :: n in names ==> names[n] < nextInode)
      && (forall i :: i in data ==> i < nextInode)
    }

    /** The caller sees success exactly when the destination was vacant, and nothing changes otherwise. */
    method PublishRename(source: string, destination: string) returns (r: Result<(), string>)
      requires Valid() && source in names
      modifies this
      ensures Valid() && data == old(data) && nextInode == old(nextInode)
      ensures r.Ok? <==> destination !in old(names)
      ensures r.Ok? ==> Ok(View()) == Rename(old(View()), source, destination)
      ensures r.Err? ==> names == old(names)
    {
      if destination in names { return Err("file exists"); }
      names := (names - {source})[destination := names[source]];
      r := Ok(());
    }

    /** Hard link, then unlink: in between both names denote one inode. */
    method PublishLink(source: string, destination: string) returns (r: Result<(), string>)
      requires Valid() && source in names
      modifies this
      ensures Valid() && data == old(data) && nextInode == old(nextInode)
      ensures r.Ok? <==> destination !in old(names)
      ensures r.Ok? ==> Ok(View()) == Rename(old(View()), source, destination)
      ensures r.Err? ==> names == old(names)
    {
      VariantsAgree(View(), source, destination);
      if destination in names { return Err("file exists"); }
      names := names[destination := names[source]];
      names := names - {source};
      r := Ok(());
    }

    method OpenOrCreate(name: string) returns (inode: nat)
      requires Valid()
      modifies this
      ensures Valid() && name in names && names[name] == inode
      ensures View() == Opened(old(View()), name, inode)
      ensures name !in old(names) ==> inode !in old(data) && forall n :: n in old(names) ==> old(names)[n] != inode
    {
      if name in names { return names[name]; }
      inode := nextInode;
      names := names[name := inode];
      data := data[inode := []];
      nextInode := nextInode + 1;
    }
  }
}
