/** The coordinator's shadow namespace: the directories and files it believes exist on the real
    filesystem, and the small tree interface the response handlers use (`get_dir_by_name`,
    `get_file_by_name`, `remove_dir_by_name`, `append_node`, the `synced_nodes` and `nids` lists). */
module Namespace {
  import opened Common

  /** Directory and file names are opaque random strings. */
  type Name = string

  /** A parsed worker timestamp; only its total order matters. */
  type Time = int

  /** What a file's `name` attribute holds: normally a string, but one handler stores a directory
      node (or `None`) there. */
  datatype FileName = Named(text: string) | DirRef(dir: Name) | NoName

  /** A file entry. Attributes never set yet are `None`. */
  datatype File = File(
    name: FileName,
    ondisk: bool,
    creationTime: Option<Time>,
    modifyTime: Option<Time>,
    dataPattern: Option<string>,
    dataPatternLen: Option<int>,
    dataPatternHash: Option<string>,
    dataPatternOffset: Option<int>,
    uuid: Option<string>)

  /** A directory node: its data (`name`, `size`, `ondisk`, `files`) and the node's `creation_time`. */
  datatype Directory = Directory(
    name: Name,
    size: int,
    ondisk: bool,
    creationTime: Option<Time>,
    files: seq<File>)

  /** A file entry that is not yet known to be on disk. */
  function NewFile(name: Name): (f: File)
    ensures f.name == Named(name) && !f.ondisk
    ensures f.creationTime.None? && f.modifyTime.None? && f.uuid.None?
  {
    File(Named(name), false, None, None, None, None, None, None, None)
  }

  /** A directory node that is not yet known to be on disk, holding one file entry per name. */
  function NewDirectory(name: Name, fileNames: seq<Name>): (d: Directory)
    ensures d.name == name && !d.ondisk && d.creationTime.None?
    ensures |d.files| == |fileNames|
    ensures forall i :: 0 <= i < |fileNames| ==> d.files[i] == NewFile(fileNames[i])
  {
    Directory(name, 0, false, None, seq(|fileNames|, i requires 0 <= i < |fileNames| => NewFile(fileNames[i])))
  }

  /** `get_file_by_name`: the position of the first file entry whose name is `name`, if any. */
  function FileIndex(files: seq<File>, name: string): (r: Option<nat>)
    ensures r.Some? ==> r.value < |files| && files[r.value].name == Named(name)
    ensures r.Some? ==> forall j :: 0 <= j < r.value ==> files[j].name != Named(name)
    ensures r.None? ==> forall j :: 0 <= j < |files| ==> files[j].name != Named(name)
    decreases |files|
  {
    if files == [] then None
    else if files[0].name == Named(name) then Some(0)
    else match FileIndex(files[1..], name)
      case None => None
      case Some(i) => Some(i + 1)
  }

  /** Replacing an entry by one with the same name does not change which entry a name finds. */
  lemma FileIndexSameName(files: seq<File>, i: nat, f: File, name: string)
    requires i < |files| && f.name == files[i].name
    ensures FileIndex(files[i := f], name) == FileIndex(files, name)
  {
    var after := FileIndex(files[i := f], name);
    var before := FileIndex(files, name);
    if before.Some? {
      assert files[i := f][before.value].name == Named(name);
    }
    if after.Some? {
      assert files[after.value].name == Named(name);
    }
  }

  /** `list.index(x)`: the first position holding `x`, or `None` where Python raises ValueError. */
  function IndexOf(xs: seq<string>, x: string): (r: Option<nat>)
    ensures r.Some? ==> r.value < |xs| && xs[r.value] == x && x !in xs[..r.value]
    ensures r.None? <==> x !in xs
    decreases |xs|
  {
    if xs == [] then None
    else if xs[0] == x then Some(0)
    else match IndexOf(xs[1..], x)
      case None => None
      case Some(i) => (assert xs[..i + 1] == [xs[0]] + xs[1..][..i]; Some(i + 1))
  }

  /** `del xs[i]`. */
  function RemoveAt(xs: seq<string>, i: nat): (r: seq<string>)
    requires i < |xs|
    ensures |r| == |xs| - 1 && r == xs[..i] + xs[i + 1..]
    ensures multiset(r) == multiset(xs) - multiset{xs[i]}
  {
    assert xs == xs[..i] + [xs[i]] + xs[i + 1..];
    xs[..i] + xs[i + 1..]
  }

  /** The whole mutable state of the shadow tree, as a value. */
  datatype Shadow = Shadow(dirs: map<Name, Directory>, syncedNodes: seq<string>, nids: seq<string>)

  /** The tree after `append_node`: a fresh directory node is added and its key joins `nids`. */
  function Appended(s: Shadow, key: Name -> string, name: Name, fileNames: seq<Name>): (t: Shadow)
    ensures name in t.dirs && t.dirs[name] == NewDirectory(name, fileNames)
    ensures forall n :: n in s.dirs && n != name ==> n in t.dirs && t.dirs[n] == s.dirs[n]
    ensures t.dirs.Keys == s.dirs.Keys + {name}
    ensures t.syncedNodes == s.syncedNodes && t.nids == s.nids + [key(name)]
  {
    s.(dirs := s.dirs[name := NewDirectory(name, fileNames)], nids := s.nids + [key(name)])
  }

  /** An entry believed to be on disk has a creation time. */
  predicate FileValid(f: File) {
    f.ondisk ==> f.creationTime.Some?
  }

  /** A directory believed to be on disk has a creation time, and so has each of its on-disk files. */
  predicate DirectoryValid(d: Directory) {
    && (d.ondisk ==> d.creationTime.Some?)
    && forall i :: 0 <= i < |d.files| ==> FileValid(d.files[i])
  }

  /** The invariant of the shadow tree: directories are filed under their own names and are valid. */
  predicate ShadowValid(s: Shadow) {
    forall n :: n in s.dirs ==> s.dirs[n].name == n && DirectoryValid(s.dirs[n])
  }

  /** The shadow tree object the handlers mutate in place. `hexKey` stands for
      `hashlib.md5(name).hexdigest()`, the identifier kept in `synced_nodes` and `nids`. */
  class DirTree {
    var dirs: map<Name, Directory>
    var syncedNodes: seq<string>
    var nids: seq<string>
    const hexKey: Name -> string

    /** The current state as a value. */
    function State(): (s: Shadow)
      reads this
      ensures s.dirs == dirs && s.syncedNodes == syncedNodes && s.nids == nids
    {
      Shadow(dirs, syncedNodes, nids)
    }

    ghost predicate Valid()
      reads this
    {
      ShadowValid(State())
    }

    /** An empty tree. */
    constructor (hexKey: Name -> string)
      ensures this.hexKey == hexKey
      ensures dirs == map[] && syncedNodes == [] && nids == []
      ensures Valid()
    {
      this.hexKey := hexKey;
      dirs := map[];
      syncedNodes := [];
      nids := [];
    }

    /** `get_dir_by_name`: the tracked directory node of that name, or `None`. */
    function GetDirByName(name: Name): (r: Option<Directory>)
      reads this
      ensures r.Some? <==> name in dirs
      ensures r.Some? ==> r.value == dirs[name]
    {
      if name in dirs then Some(dirs[name]) else None
    }

    /** `remove_dir_by_name`: drops the directory node; `found` is false where the tree raises
        NodeIDAbsentError, and then nothing changes. */
    method RemoveDirByName(name: Name) returns (found: bool)
      modifies this
      ensures found == (name in old(dirs))
      ensures dirs == old(dirs) - {name}
      ensures syncedNodes == old(syncedNodes) && nids == old(nids)
    {
      found := name in dirs;
      dirs := dirs - {name};
    }

    /** `append_node`: adds a fresh directory node (names come from the caller's random source). */
    method AppendNode(name: Name, fileNames: seq<Name>)
      modifies this
      ensures State() == Appended(old(State()), hexKey, name, fileNames)
    {
      dirs := dirs[name := NewDirectory(name, fileNames)];
      nids := nids + [hexKey(name)];
    }

    /** Writes back a file entry that a handler changed in place. */
    method PutFile(dir: Name, i: nat, f: File)
      requires dir in dirs && i < |dirs[dir].files|
      modifies this
      ensures dirs == old(dirs)[dir := old(dirs)[dir].(files := old(dirs)[dir].files[i := f])]
      ensures syncedNodes == old(syncedNodes) && nids == old(nids)
    {
      var d := dirs[dir];
      dirs := dirs[dir := d.(files := d.files[i := f])];
    }
  }
}
