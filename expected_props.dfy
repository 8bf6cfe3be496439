/** Properties of the verifier's handlers, proved about the functions of module Expected (and so,
    through the handlers' contracts, about the imperative handlers too). Success targets are written
    "/dir/file"; failure targets carry the mount prefix, "/a/b/dir/file". */
module ExpectedProps {
  import opened Common
  import opened Paths
  import opened Namespace
  import opened Outcomes
  import opened Expected

  /** The target "/dir/file" of a success outcome. */
  function FilePath(d: Name, f: Name): string {
    Join(["", d, f], '/')
  }

  /** A success target splits back into its directory and file name. */
  lemma FilePathSplits(d: Name, f: Name)
    requires '/' !in d && '/' !in f
    ensures Split(FilePath(d, f), '/') == ["", d, f]
  {
    SplitJoin(["", d, f], '/');
  }

  /** The target "/a/b/dir/file" of a failure outcome. */
  function MountedPath(a: string, b: string, d: Name, f: Name): string {
    Join(["", a, b, d, f], '/')
  }

  lemma MountedPathSplits(a: string, b: string, d: Name, f: Name)
    requires '/' !in a && '/' !in b && '/' !in d && '/' !in f
    ensures Split(MountedPath(a, b, d, f), '/') == ["", a, b, d, f]
  {
    SplitJoin(["", a, b, d, f], '/');
  }

  // ---------------------------------------------------------------- dispatch

  /** Routing: an action both tables know goes to the success table exactly when the result is
      "success"; any other action (such as "truncate") is a lookup failure that changes nothing. */
  lemma {:induction false} Routing(s: Shadow, msg: Response, key: Name -> string, random: Fresh)
    ensures msg.action !in ActionNames ==> ResponseAction(s, msg, key, random) == Step(s, Raised(KeyError))
    ensures msg.action in ActionNames && msg.result == "success" ==>
      exists a :: ActionName(a) == msg.action && ResponseAction(s, msg, key, random) == Success(a, s, msg, key, random.token)
    ensures msg.action in ActionNames && msg.result != "success" ==>
      exists a :: ActionName(a) == msg.action && ResponseAction(s, msg, key, random) == Fail(a, s, msg, key, random)
  {
    var r := ResponseActions(msg.action);
    if r.Some? {
      var a := r.value;
      assert ActionName(a) == msg.action;
    }
  }

  lemma TruncateIsLookupFailure(s: Shadow, msg: Response, key: Name -> string, random: Fresh)
    requires msg.action == "truncate"
    ensures ResponseAction(s, msg, key, random) == Step(s, Raised(KeyError))
  {
    Routing(s, msg, key, random);
  }

  /** Every outcome of a known action whose code is tolerated by that action's failure handler is
      dropped: nothing changes and nothing is logged. */
  lemma ToleratedIsSilent(a: Action, s: Shadow, msg: Response, key: Name -> string, random: Fresh)
    requires msg.action == ActionName(a) && msg.result != "success"
    requires Tolerated(a, msg.errorCode)
    ensures ResponseAction(s, msg, key, random) == Step(s, Quiet)
  {
    ActionTableRoundTrip(a);
  }

  /** The tolerated codes are exactly the ones the source lists per handler. */
  lemma ToleratedTable(a: Action, code: ErrorCode)
    ensures code == NoTarget || code == EEXIST ==> Tolerated(a, code)
    ensures code == ESTALE ==> (Tolerated(a, code) <==> a !in {Mkdir, Touch, List})
    ensures code == ZeroSize ==> (Tolerated(a, code) <==> a == Read)
    ensures code == SameFile ==> (Tolerated(a, code) <==> a == RenameExist)
    ensures code == MaxDirSize || code == HashError || code == ENOENT ==> !Tolerated(a, code)
  {
  }

  // ---------------------------------------------------------------- touch

  /** A confirmed mkdir: the directory named by the whole target becomes on disk with the reported
      size, created at the outcome's time, its files untouched, and its key joins `synced_nodes`; no
      other directory and not `nids` changes. An untracked target raises with nothing changed. */
  lemma MkdirEffect(s: Shadow, msg: Response, key: Name -> string)
    ensures msg.target !in s.dirs ==> MkdirSuccess(s, msg, key) == Step(s, Raised(AttributeError))
    ensures msg.target in s.dirs ==>
      var t := MkdirSuccess(s, msg, key);
      var d := s.dirs[msg.target];
      var e := t.state.dirs[msg.target];
      && t.out == Noted
      && t.state.dirs.Keys == s.dirs.Keys
      && (forall n :: n in s.dirs && n != msg.target ==> t.state.dirs[n] == s.dirs[n])
      && e.ondisk && e.size == msg.data.dirsize && e.creationTime == Some(msg.timestamp)
      && e.name == d.name && e.files == d.files
      && t.state.syncedNodes == s.syncedNodes + [key(d.name)] && t.state.nids == s.nids
      && (ShadowValid(s) ==> t.state.syncedNodes == s.syncedNodes + [key(msg.target)])
  {
  }

  /** A confirmed touch of "/d/f": the first entry named `f` is on disk, created at the outcome's
      time and carries the fresh token; the directory takes the reported size; no other entry, no
      other directory and neither key list changes. */
  lemma TouchConfirms(s: Shadow, msg: Response, token: string, d: Name, f: Name, i: nat)
    requires '/' !in d && '/' !in f && msg.target == FilePath(d, f)
    requires d in s.dirs && FileIndex(s.dirs[d].files, f) == Some(i)
    ensures var t := TouchSuccess(s, msg, token);
      && t.out == Noted
      && t.state.syncedNodes == s.syncedNodes && t.state.nids == s.nids
      && t.state.dirs.Keys == s.dirs.Keys
      && (forall n :: n in s.dirs && n != d ==> t.state.dirs[n] == s.dirs[n])
      && t.state.dirs[d].size == msg.data.dirsize
      && t.state.dirs[d].name == s.dirs[d].name && t.state.dirs[d].ondisk == s.dirs[d].ondisk
      && t.state.dirs[d].creationTime == s.dirs[d].creationTime
      && |t.state.dirs[d].files| == |s.dirs[d].files|
      && (forall j :: 0 <= j < |s.dirs[d].files| && j != i ==> t.state.dirs[d].files[j] == s.dirs[d].files[j])
      && var g := t.state.dirs[d].files[i];
         g.ondisk && g.creationTime == Some(msg.timestamp) && g.uuid == Some(token)
         && g == s.dirs[d].files[i].(ondisk := true, creationTime := Some(msg.timestamp), uuid := Some(token))
  {
    FilePathSplits(d, f);
  }

  /** A touch of an untracked directory, or of a name the directory does not hold, changes nothing. */
  lemma TouchNoMatch(s: Shadow, msg: Response, token: string, d: Name, f: Name)
    requires '/' !in d && '/' !in f && msg.target == FilePath(d, f)
    requires d !in s.dirs || FileIndex(s.dirs[d].files, f).None?
    ensures TouchSuccess(s, msg, token) == Step(s, Noted)
  {
    FilePathSplits(d, f);
  }

  // ---------------------------------------------------------------- read

  /** The integrity verdict of a read of "/d/f": it never changes the tree, and it is an error
      exactly when the directory is tracked and on disk, the file is found, the stored hash differs
      from the incoming one, the session tokens agree and the read is no later than the last write. */
  lemma ReadFlagsIff(s: Shadow, msg: Response, d: Name, f: Name)
    requires '/' !in d && '/' !in f && msg.target == FilePath(d, f)
    ensures ReadSuccess(s, msg).state == s
    ensures ReadSuccess(s, msg).out.Flagged? <==>
      && d in s.dirs && s.dirs[d].ondisk
      && FileIndex(s.dirs[d].files, f).Some?
      && var g := s.dirs[d].files[FileIndex(s.dirs[d].files, f).value];
         && g.dataPatternHash != Some(msg.data.hash)
         && g.uuid == Some(msg.data.uuid)
         && g.modifyTime.Some? && msg.timestamp <= g.modifyTime.value
    ensures ReadSuccess(s, msg).out.Flagged? ==>
      var g := s.dirs[d].files[FileIndex(s.dirs[d].files, f).value];
      ReadSuccess(s, msg).out.report == HashMismatch(g.name, g.dataPatternHash, msg.data.hash, msg.data.offset, msg.data.chunkSize)
  {
    FilePathSplits(d, f);
  }

  /** The only way a read can raise is a comparison with a modify time that was never set: a file
      touched but never written, read within its own session with a different hash. */
  lemma ReadRaisesIff(s: Shadow, msg: Response, d: Name, f: Name)
    requires '/' !in d && '/' !in f && msg.target == FilePath(d, f)
    ensures ReadSuccess(s, msg).out.Raised? <==>
      && d in s.dirs && s.dirs[d].ondisk
      && FileIndex(s.dirs[d].files, f).Some?
      && var g := s.dirs[d].files[FileIndex(s.dirs[d].files, f).value];
         g.dataPatternHash != Some(msg.data.hash) && g.uuid == Some(msg.data.uuid) && g.modifyTime.None?
  {
    FilePathSplits(d, f);
  }

  // ---------------------------------------------------------------- write, and write then read

  /** A confirmed write of "/d/f" to a tracked, on-disk directory updates the found entry's content
      fields and modify time; an entry already on disk keeps its creation time and token, one that
      was not also becomes on disk, created at the write. Nothing else changes. */
  lemma WriteEffect(s: Shadow, msg: Response, d: Name, f: Name)
    requires '/' !in d && '/' !in f && msg.target == FilePath(d, f)
    ensures WriteSuccess(s, msg).out == Noted
    ensures !(d in s.dirs && s.dirs[d].ondisk && FileIndex(s.dirs[d].files, f).Some?) ==>
      WriteSuccess(s, msg).state == s
    ensures d in s.dirs && s.dirs[d].ondisk && FileIndex(s.dirs[d].files, f).Some? ==>
      var i := FileIndex(s.dirs[d].files, f).value;
      var old_ := s.dirs[d].files[i];
      var g := WriteSuccess(s, msg).state.dirs[d].files[i];
      && WriteSuccess(s, msg).state == WithFile(s, d, i, g)
      && g.name == old_.name && g.uuid == old_.uuid && g.ondisk
      && g.modifyTime == Some(msg.timestamp)
      && g.dataPattern == Some(msg.data.dataPattern) && g.dataPatternLen == Some(msg.data.repeats)
      && g.dataPatternHash == Some(msg.data.hash) && g.dataPatternOffset == Some(msg.data.offset)
      && g.creationTime == (if old_.ondisk then old_.creationTime else Some(msg.timestamp))
  {
    FilePathSplits(d, f);
  }

  /** A read that follows a confirmed write of the same on-disk file: it is an error carrying the
      written hash, the read hash, offset and chunk size exactly when the hashes differ, the read
      belongs to the file's session and is no later than the write. */
  lemma WriteThenRead(s: Shadow, w: Response, r: Response, d: Name, f: Name)
    requires '/' !in d && '/' !in f && w.target == FilePath(d, f) && r.target == FilePath(d, f)
    requires d in s.dirs && s.dirs[d].ondisk && FileIndex(s.dirs[d].files, f).Some?
    ensures var v := ReadSuccess(WriteSuccess(s, w).state, r).out;
      var g := s.dirs[d].files[FileIndex(s.dirs[d].files, f).value];
      && (r.data.hash != w.data.hash && g.uuid == Some(r.data.uuid) && r.timestamp <= w.timestamp ==>
           v == Flagged(HashMismatch(Named(f), Some(w.data.hash), r.data.hash, r.data.offset, r.data.chunkSize)))
      && (r.data.hash == w.data.hash || g.uuid != Some(r.data.uuid) || r.timestamp > w.timestamp ==> v == Noted)
  {
    FilePathSplits(d, f);
    var files := s.dirs[d].files;
    var i := FileIndex(files, f).value;
    var t := WriteSuccess(s, w).state;
    FileIndexSameName(files, i, Written(files[i], w), f);
    assert t.dirs[d].files == files[i := Written(files[i], w)];
  }

  // ---------------------------------------------------------------- delete and rename

  /** A confirmed delete of "/d/f" marks the found on-disk entry as removed and changes nothing
      else; in every other case nothing changes at all. */
  lemma DeleteEffect(s: Shadow, msg: Response, d: Name, f: Name)
    requires '/' !in d && '/' !in f && msg.target == FilePath(d, f)
    ensures DeleteSuccess(s, msg).out == Noted
    ensures if d in s.dirs && s.dirs[d].ondisk && FileIndex(s.dirs[d].files, f).Some?
               && s.dirs[d].files[FileIndex(s.dirs[d].files, f).value].ondisk
            then var i := FileIndex(s.dirs[d].files, f).value;
                 DeleteSuccess(s, msg).state == WithFile(s, d, i, s.dirs[d].files[i].(ondisk := false))
            else DeleteSuccess(s, msg).state == s
  {
    FilePathSplits(d, f);
  }

  /** Deleting twice is deleting once, for every outcome record. */
  lemma DeleteIdempotent(s: Shadow, msg: Response)
    ensures DeleteSuccess(DeleteSuccess(s, msg).state, msg) == DeleteSuccess(s, msg)
  {
    match ResolveOnDisk(s, msg.target)
    case Stop(_) =>
    case At(d, i) =>
      var files := s.dirs[d].files;
      if files[i].ondisk {
        var parts := Split(msg.target, '/');
        FileIndexSameName(files, i, files[i].(ondisk := false), parts[2]);
      }
  }

  /** A confirmed rename of "/d/f" gives the found entry the whole destination string as its name;
      an entry not yet on disk is also synced, created at the rename. Nothing else changes. */
  lemma RenameEffect(s: Shadow, msg: Response, d: Name, f: Name)
    requires '/' !in d && '/' !in f && msg.target == FilePath(d, f)
    ensures RenameSuccess(s, msg).out == Noted
    ensures if d in s.dirs && s.dirs[d].ondisk && FileIndex(s.dirs[d].files, f).Some?
            then var i := FileIndex(s.dirs[d].files, f).value;
                 var old_ := s.dirs[d].files[i];
                 var dest := Named(msg.data.renameDest);
                 RenameSuccess(s, msg).state == WithFile(s, d, i,
                   if old_.ondisk then old_.(name := dest)
                   else old_.(ondisk := true, name := dest, creationTime := Some(msg.timestamp)))
            else RenameSuccess(s, msg).state == s
  {
    FilePathSplits(d, f);
  }

  /** The tree after the first half of a rename over an existing file: the source entry "/sd/sf" is
      taken off disk when it is found on disk in a tracked, on-disk directory. */
  function SourceRemoved(s: Shadow, sd: Name, sf: Name): Shadow {
    if sd in s.dirs && s.dirs[sd].ondisk && FileIndex(s.dirs[sd].files, sf).Some?
       && s.dirs[sd].files[FileIndex(s.dirs[sd].files, sf).value].ondisk
    then var i := FileIndex(s.dirs[sd].files, sf).value;
         WithFile(s, sd, i, s.dirs[sd].files[i].(ondisk := false))
    else s
  }

  /** A rename of "/sd/sf" over an existing "/dd/df": first the source entry is taken off disk, then,
      in the tree that results (so also when both are in one directory), the destination entry found
      there is renamed and synced. As written, the new name is what looking up the source FILE name
      as a directory gives: that directory node, or `None`. The verdict is always informational. */
  lemma RenameExistEffect(s: Shadow, msg: Response, sd: Name, sf: Name, dd: Name, df: Name)
    requires '/' !in sd && '/' !in sf && '/' !in dd && '/' !in df
    requires msg.data.renameSource == FilePath(sd, sf) && msg.data.renameDest == FilePath(dd, df)
    ensures var s1 := SourceRemoved(s, sd, sf);
      var t := RenameExistSuccess(s, msg);
      var newName := if sf in s.dirs then DirRef(sf) else NoName;
      && t.out == Noted
      && if dd in s1.dirs && s1.dirs[dd].ondisk && FileIndex(s1.dirs[dd].files, df).Some?
         then var j := FileIndex(s1.dirs[dd].files, df).value;
              t.state == WithFile(s1, dd, j, Renamed(s1.dirs[dd].files[j], newName, msg.timestamp))
         else t.state == s1
  {
    FilePathSplits(sd, sf);
    FilePathSplits(dd, df);
  }

  /** A rename source without a file component makes the handler raise IndexError before it changes
      anything. */
  lemma RenameExistShortSource(s: Shadow, msg: Response, sd: Name)
    requires '/' !in sd && msg.data.renameSource == Join(["", sd], '/')
    ensures RenameExistSuccess(s, msg) == Step(s, Raised(IndexError))
  {
    SplitJoin(["", sd], '/');
  }

  // ---------------------------------------------------------------- ENOENT

  /** ENOENT on a file action for "/a/b/d/f": an error verdict and a downgrade of the entry to off
      disk happen together, and exactly when the directory is tracked, the entry is found and on
      disk and the failure is later than the entry's creation; nothing else ever changes. */
  lemma FileEnoentIff(s: Shadow, msg: Response, a: string, b: string, d: Name, f: Name)
    requires '/' !in a && '/' !in b && '/' !in d && '/' !in f && msg.target == MountedPath(a, b, d, f)
    requires ShadowValid(s)
    ensures var t := FileEnoent(s, msg);
      && (t.out.Flagged? <==> t.state != s)
      && (t.out.Flagged? <==>
           && d in s.dirs && FileIndex(s.dirs[d].files, f).Some?
           && var g := s.dirs[d].files[FileIndex(s.dirs[d].files, f).value];
              g.ondisk && msg.timestamp > g.creationTime.value)
      && (t.out.Flagged? ==>
           var i := FileIndex(s.dirs[d].files, f).value;
           && t.out.report == VerifyFailed(msg.action, d, f, true)
           && t.state == WithFile(s, d, i, s.dirs[d].files[i].(ondisk := false)))
      && (t.out == Quiet || t.out == Noted || t.out.Flagged?)
  {
    MountedPathSplits(a, b, d, f);
    var parts := Split(msg.target, '/');
    if d in s.dirs {
      var files := s.dirs[d].files;
      match FileIndex(files, f)
      case None =>
      case Some(i) =>
        assert FileValid(files[i]);
        if files[i].ondisk && msg.timestamp > files[i].creationTime.value {
          assert files[i].(ondisk := false) != files[i];
          assert WithFile(s, d, i, files[i].(ondisk := false)).dirs[d].files[i] != s.dirs[d].files[i];
        }
    }
  }

  /** ENOENT on a touch never changes the tree; it is an error exactly when the directory is
      tracked, on disk and was created before the failure. */
  lemma TouchEnoentIff(s: Shadow, msg: Response, a: string, b: string, d: Name, f: Name)
    requires '/' !in a && '/' !in b && '/' !in d && '/' !in f && msg.target == MountedPath(a, b, d, f)
    requires ShadowValid(s)
    ensures TouchEnoent(s, msg).state == s
    ensures TouchEnoent(s, msg).out.Flagged? <==>
      d in s.dirs && s.dirs[d].ondisk && msg.timestamp > s.dirs[d].creationTime.value
    ensures TouchEnoent(s, msg).out.Flagged? ==> TouchEnoent(s, msg).out.report == VerifyFailed(msg.action, d, f, false)
  {
    MountedPathSplits(a, b, d, f);
    if d in s.dirs {
      assert DirectoryValid(s.dirs[d]);
    }
  }

  /** The stat scenario: ENOENT on a file believed on disk and created before the failure is an
      error, and the file is downgraded. */
  lemma StatEnoentDowngrades(s: Shadow, msg: Response, key: Name -> string, random: Fresh,
                             a: string, b: string, d: Name, f: Name, i: nat)
    requires '/' !in a && '/' !in b && '/' !in d && '/' !in f && msg.target == MountedPath(a, b, d, f)
    requires msg.action == "stat" && msg.result == "failed" && msg.errorCode == ENOENT
    requires d in s.dirs && FileIndex(s.dirs[d].files, f) == Some(i)
    requires s.dirs[d].files[i].ondisk && s.dirs[d].files[i].creationTime.Some?
    requires s.dirs[d].files[i].creationTime.value < msg.timestamp
    ensures ResponseAction(s, msg, key, random) ==
      Step(WithFile(s, d, i, s.dirs[d].files[i].(ondisk := false)), Flagged(VerifyFailed("stat", d, f, true)))
  {
    MountedPathSplits(a, b, d, f);
  }

  // ---------------------------------------------------------------- MAX_DIR_SIZE

  /** Retiring a full directory "/r/...": when it is tracked and its key is in both lists, it is
      removed, the first occurrence of its key is deleted from `synced_nodes` and from `nids` with the
      other keys kept in order, and exactly one fresh directory node (off disk, one entry per fresh
      file name) is appended, its key last in `nids`; so the count of tracked directories is kept
      when the fresh name is new. An already retired directory changes nothing. */
  lemma RetireEffect(s: Shadow, msg: Response, key: Name -> string, random: Fresh, r: Name, rest: string)
    requires '/' !in r && msg.target == "/" + r + "/" + rest
    ensures r !in s.dirs ==> RetireDirectory(s, msg, key, random) == Step(s, Noted)
    ensures r in s.dirs && key(r) in s.syncedNodes && key(r) in s.nids ==>
      var t := RetireDirectory(s, msg, key, random);
      var k := IndexOf(s.syncedNodes, key(r)).value;
      var m := IndexOf(s.nids, key(r)).value;
      && t.out == Noted
      && t.state.dirs == (s.dirs - {r})[random.dirName := NewDirectory(random.dirName, random.fileNames)]
      && key(r) !in s.syncedNodes[..k] && key(r) !in s.nids[..m]
      && t.state.syncedNodes == s.syncedNodes[..k] + s.syncedNodes[k + 1..]
      && t.state.nids == s.nids[..m] + s.nids[m + 1..] + [key(random.dirName)]
      && multiset(t.state.syncedNodes) == multiset(s.syncedNodes) - multiset{key(r)}
      && |t.state.nids| == |s.nids|
      && multiset(t.state.nids) == multiset(s.nids) - multiset{key(r)} + multiset{key(random.dirName)}
      && (random.dirName !in s.dirs || random.dirName == r ==> |t.state.dirs| == |s.dirs|)
  {
    SplitCons("", '/', r + "/" + rest);
    SplitCons(r, '/', rest);
    assert "/" + r + "/" + rest == [] + ['/'] + (r + "/" + rest);
    assert r + "/" + rest == r + ['/'] + rest;
    var parts := Split(msg.target, '/');
    assert parts[1] == r;
  }

  /** A key missing from `synced_nodes` makes the retirement raise after the directory is already
      gone from the tree. */
  lemma RetireMissingKeyRaises(s: Shadow, msg: Response, key: Name -> string, random: Fresh, r: Name, rest: string)
    requires '/' !in r && msg.target == "/" + r + "/" + rest
    requires r in s.dirs && key(r) !in s.syncedNodes
    ensures RetireDirectory(s, msg, key, random) == Step(s.(dirs := s.dirs - {r}), Raised(ValueError))
  {
    SplitCons("", '/', r + "/" + rest);
    SplitCons(r, '/', rest);
    assert "/" + r + "/" + rest == [] + ['/'] + (r + "/" + rest);
    assert r + "/" + rest == r + ['/'] + rest;
  }

  /** A key present in `synced_nodes` but missing from `nids` makes the retirement raise after the
      directory is gone from the tree and the first occurrence of its key is gone from
      `synced_nodes`. */
  lemma RetireMissingNidRaises(s: Shadow, msg: Response, key: Name -> string, random: Fresh, r: Name, rest: string)
    requires '/' !in r && msg.target == "/" + r + "/" + rest
    requires r in s.dirs && key(r) in s.syncedNodes && key(r) !in s.nids
    ensures var k := IndexOf(s.syncedNodes, key(r)).value;
      && key(r) !in s.syncedNodes[..k]
      && RetireDirectory(s, msg, key, random)
         == Step(s.(dirs := s.dirs - {r}, syncedNodes := s.syncedNodes[..k] + s.syncedNodes[k + 1..]), Raised(ValueError))
  {
    SplitCons("", '/', r + "/" + rest);
    SplitCons(r, '/', rest);
    assert "/" + r + "/" + rest == [] + ['/'] + (r + "/" + rest);
    assert r + "/" + rest == r + ['/'] + rest;
  }

  // ---------------------------------------------------------------- the invariant

  /** Every handler keeps the tree's invariant, also where it raises halfway. */
  lemma ResponseActionKeepsValid(s: Shadow, msg: Response, key: Name -> string, random: Fresh)
    requires ShadowValid(s)
    ensures ShadowValid(ResponseAction(s, msg, key, random).state)
  {
    match ResponseActions(msg.action)
    case None =>
    case Some(a) =>
      if msg.result == "success" {
        SuccessKeepsValid(a, s, msg, key, random.token);
      } else {
        FailKeepsValid(a, s, msg, key, random);
      }
  }

  lemma WithFileKeepsValid(s: Shadow, d: Name, i: nat, f: File)
    requires ShadowValid(s) && d in s.dirs && i < |s.dirs[d].files| && FileValid(f)
    ensures ShadowValid(WithFile(s, d, i, f))
  {
    var t := WithFile(s, d, i, f);
    forall n | n in t.dirs
      ensures t.dirs[n].name == n && DirectoryValid(t.dirs[n])
    {
      if n == d {
        assert DirectoryValid(s.dirs[d]);
        var files := t.dirs[d].files;
        forall j | 0 <= j < |files|
          ensures FileValid(files[j])
        {
          if j != i {
            assert files[j] == s.dirs[d].files[j];
          }
        }
      }
    }
  }

  lemma SuccessKeepsValid(a: Action, s: Shadow, msg: Response, key: Name -> string, token: string)
    requires ShadowValid(s)
    ensures ShadowValid(Success(a, s, msg, key, token).state)
  {
    match a
    case Mkdir => {
      if msg.target in s.dirs {
        var t := MkdirSuccess(s, msg, key).state;
        assert DirectoryValid(s.dirs[msg.target]);
        assert t.dirs[msg.target].files == s.dirs[msg.target].files;
      }
    }
    case Touch => {
      var parts := Split(msg.target, '/');
      if |parts| >= 3 && parts[1] in s.dirs {
        var d := s.dirs[parts[1]];
        match FileIndex(d.files, parts[2])
        case None =>
        case Some(i) =>
          var t := TouchSuccess(s, msg, token).state;
          assert t.dirs == s.dirs[parts[1] := d.(size := msg.data.dirsize, files := d.files[i := Touched(d.files[i], msg, token)])];
          WithFileKeepsValid(s, parts[1], i, Touched(d.files[i], msg, token));
          assert WithFile(s, parts[1], i, Touched(d.files[i], msg, token)).dirs[parts[1]].files == t.dirs[parts[1]].files;
      }
    }
    case List => {
    }
    case Stat => {
    }
    case Read => {
    }
    case Write => {
      match ResolveOnDisk(s, msg.target)
      case Stop(_) =>
      case At(d, i) =>
        assert DirectoryValid(s.dirs[d]) && FileValid(s.dirs[d].files[i]);
        WithFileKeepsValid(s, d, i, Written(s.dirs[d].files[i], msg));
    }
    case Delete => {
      match ResolveOnDisk(s, msg.target)
      case Stop(_) =>
      case At(d, i) =>
        WithFileKeepsValid(s, d, i, s.dirs[d].files[i].(ondisk := false));
    }
    case Rename => {
      match ResolveOnDisk(s, msg.target)
      case Stop(_) =>
      case At(d, i) =>
        assert DirectoryValid(s.dirs[d]) && FileValid(s.dirs[d].files[i]);
        WithFileKeepsValid(s, d, i, Renamed(s.dirs[d].files[i], Named(msg.data.renameDest), msg.timestamp));
    }
    case RenameExist => {
      var src := Split(msg.data.renameSource, '/');
      var dst := Split(msg.data.renameDest, '/');
      if |src| >= 3 && |dst| >= 2 {
        var newName := if src[2] in s.dirs then DirRef(src[2]) else NoName;
        var s1 := match ResolveOnDisk(s, msg.data.renameSource)
          case Stop(_) => s
          case At(d, i) =>
            if s.dirs[d].files[i].ondisk then WithFile(s, d, i, s.dirs[d].files[i].(ondisk := false)) else s;
        match ResolveOnDisk(s, msg.data.renameSource)
        case Stop(_) =>
        case At(d, i) =>
          if s.dirs[d].files[i].ondisk {
            WithFileKeepsValid(s, d, i, s.dirs[d].files[i].(ondisk := false));
          }
        assert ShadowValid(s1);
        match ResolveOnDisk(s1, msg.data.renameDest)
        case Stop(_) =>
        case At(d, i) =>
          assert DirectoryValid(s1.dirs[d]) && FileValid(s1.dirs[d].files[i]);
          WithFileKeepsValid(s1, d, i, Renamed(s1.dirs[d].files[i], newName, msg.timestamp));
      }
    }
  }

  lemma FailKeepsValid(a: Action, s: Shadow, msg: Response, key: Name -> string, random: Fresh)
    requires ShadowValid(s)
    ensures ShadowValid(Fail(a, s, msg, key, random).state)
  {
    if !Tolerated(a, msg.errorCode) {
      if a == Touch && msg.errorCode == MaxDirSize {
        RetireKeepsValid(s, msg, key, random);
      } else if a in FileActions && msg.errorCode == ENOENT {
        var parts := Split(msg.target, '/');
        if |parts| >= 5 && parts[3] in s.dirs {
          match FileIndex(s.dirs[parts[3]].files, parts[4])
          case None =>
          case Some(i) =>
            WithFileKeepsValid(s, parts[3], i, s.dirs[parts[3]].files[i].(ondisk := false));
        }
      }
    }
  }

  lemma RetireKeepsValid(s: Shadow, msg: Response, key: Name -> string, random: Fresh)
    requires ShadowValid(s)
    ensures ShadowValid(RetireDirectory(s, msg, key, random).state)
  {
    var n := NewDirectory(random.dirName, random.fileNames);
    assert DirectoryValid(n) by {
      forall j | 0 <= j < |n.files|
        ensures FileValid(n.files[j])
      {
        assert n.files[j] == NewFile(random.fileNames[j]);
      }
    }
  }

  /** On a valid tree the failure handlers never raise TypeError: every time they compare against
      is set when its entry is on disk. */
  lemma FailNeverTypeError(a: Action, s: Shadow, msg: Response, key: Name -> string, random: Fresh)
    requires ShadowValid(s)
    ensures Fail(a, s, msg, key, random).out != Raised(TypeError)
  {
    var parts := Split(msg.target, '/');
    if |parts| >= 5 && parts[3] in s.dirs {
      assert DirectoryValid(s.dirs[parts[3]]);
      match FileIndex(s.dirs[parts[3]].files, parts[4])
      case None =>
      case Some(i) =>
        assert FileValid(s.dirs[parts[3]].files[i]);
    }
  }
}
