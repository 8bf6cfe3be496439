/** The response handlers as the source writes them: each one reads the outcome record, looks the
    target up in the shadow tree and assigns the fields of the directory or file entry in place.
    Every handler is proved to do exactly what its function in module Expected describes. */
module ResponseActions {
  import opened Common
  import opened Paths
  import opened Namespace
  import opened Outcomes
  import Expected
  import ExpectedProps

  // ---------------------------------------------------------------- success handlers

  method MkdirSuccess(tree: DirTree, msg: Response) returns (out: Outcome)
    modifies tree
    ensures Expected.Step(tree.State(), out) == Expected.MkdirSuccess(old(tree.State()), msg, tree.hexKey)
  {
    var syncdir := tree.GetDirByName(msg.target);
    if syncdir.None? {
      // `syncdir.data` on None
      return Raised(AttributeError);
    }
    var d := syncdir.value;
    tree.dirs := tree.dirs[msg.target := d.(size := msg.data.dirsize, ondisk := true,
                                           creationTime := Some(msg.timestamp))];
    tree.syncedNodes := tree.syncedNodes + [tree.hexKey(d.name)];
    out := Noted;
  }

  method TouchSuccess(tree: DirTree, msg: Response, token: string) returns (out: Outcome)
    modifies tree
    ensures Expected.Step(tree.State(), out) == Expected.TouchSuccess(old(tree.State()), msg, token)
  {
    var path := Split(msg.target, '/')[1..];  // folder:file
    if |path| < 1 {
      return Raised(IndexError);
    }
    var syncdir := tree.GetDirByName(path[0]);
    if syncdir.None? {
      // the debug message names path[1]
      if |path| < 2 {
        return Raised(IndexError);
      }
      return Noted;
    }
    var files := syncdir.value.files;
    var i := 0;
    while i < |files|
      invariant 0 <= i <= |files|
      invariant |path| < 2 ==> i == 0
      invariant |path| >= 2 ==> forall j :: 0 <= j < i ==> files[j].name != Named(path[1])
      invariant tree.State() == old(tree.State())
    {
      if |path| < 2 {
        // `f.name == path[1]` on the first entry
        return Raised(IndexError);
      }
      if files[i].name == Named(path[1]) {
        var f := files[i].(ondisk := true, creationTime := Some(msg.timestamp), uuid := Some(token));
        tree.dirs := tree.dirs[path[0] := tree.dirs[path[0]].(size := msg.data.dirsize, files := files[i := f])];
        break;
      }
      i := i + 1;
    }
    out := Noted;
  }

  method ReadSuccess(tree: DirTree, msg: Response) returns (out: Outcome)
    ensures Expected.Step(tree.State(), out) == Expected.ReadSuccess(tree.State(), msg)
  {
    var path := Split(msg.target, '/')[1..];  // folder:file
    if |path| < 1 {
      return Raised(IndexError);
    }
    var readdir := tree.GetDirByName(path[0]);
    if readdir.None? {
      return Noted;
    }
    if |path| < 2 {
      return Raised(IndexError);
    }
    out := Noted;
    if readdir.value.ondisk {
      var k := FileIndex(readdir.value.files, path[1]);
      if k.Some? {
        var rfile := readdir.value.files[k.value];
        var readTime := msg.timestamp;
        if rfile.dataPatternHash != Some(msg.data.hash) && rfile.uuid == Some(msg.data.uuid) {
          if rfile.modifyTime.None? {
            // `read_time <= None`
            return Raised(TypeError);
          }
          if readTime <= rfile.modifyTime.value {
            out := Flagged(HashMismatch(rfile.name, rfile.dataPatternHash, msg.data.hash,
                                        msg.data.offset, msg.data.chunkSize));
          }
        }
      }
    }
  }

  method WriteSuccess(tree: DirTree, msg: Response) returns (out: Outcome)
    modifies tree
    ensures Expected.Step(tree.State(), out) == Expected.WriteSuccess(old(tree.State()), msg)
  {
    var path := Split(msg.target, '/')[1..];  // folder:file
    if |path| < 1 {
      return Raised(IndexError);
    }
    var writedir := tree.GetDirByName(path[0]);
    if writedir.None? {
      return Noted;
    }
    if |path| < 2 {
      return Raised(IndexError);
    }
    if writedir.value.ondisk {
      var k := FileIndex(writedir.value.files, path[1]);
      if k.Some? && writedir.value.files[k.value].ondisk {
        var wfile := writedir.value.files[k.value];
        wfile := wfile.(ondisk := true, modifyTime := Some(msg.timestamp));
        wfile := wfile.(dataPattern := Some(msg.data.dataPattern), dataPatternLen := Some(msg.data.repeats));
        wfile := wfile.(dataPatternHash := Some(msg.data.hash), dataPatternOffset := Some(msg.data.offset));
        tree.PutFile(path[0], k.value, wfile);
      } else if k.Some? {
        // the write overtook its touch: sync the entry here
        var wfile := writedir.value.files[k.value];
        wfile := wfile.(ondisk := true, dataPattern := Some(msg.data.dataPattern), dataPatternLen := Some(msg.data.repeats));
        wfile := wfile.(dataPatternHash := Some(msg.data.hash), dataPatternOffset := Some(msg.data.offset));
        wfile := wfile.(creationTime := Some(msg.timestamp));
        wfile := wfile.(modifyTime := wfile.creationTime);
        tree.PutFile(path[0], k.value, wfile);
      }
    }
    out := Noted;
  }

  method DeleteSuccess(tree: DirTree, msg: Response) returns (out: Outcome)
    modifies tree
    ensures Expected.Step(tree.State(), out) == Expected.DeleteSuccess(old(tree.State()), msg)
  {
    var path := Split(msg.target, '/')[1..];  // folder:file
    if |path| < 1 {
      return Raised(IndexError);
    }
    var deldir := tree.GetDirByName(path[0]);
    if deldir.None? {
      return Noted;
    }
    if |path| < 2 {
      return Raised(IndexError);
    }
    if deldir.value.ondisk {
      var k := FileIndex(deldir.value.files, path[1]);
      if k.Some? && deldir.value.files[k.value].ondisk {
        tree.PutFile(path[0], k.value, deldir.value.files[k.value].(ondisk := false));
      }
    }
    out := Noted;
  }

  method RenameSuccess(tree: DirTree, msg: Response) returns (out: Outcome)
    modifies tree
    ensures Expected.Step(tree.State(), out) == Expected.RenameSuccess(old(tree.State()), msg)
  {
    var path := Split(msg.target, '/')[1..];  // folder:file
    if |path| < 1 {
      return Raised(IndexError);
    }
    var renameDir := tree.GetDirByName(path[0]);
    if renameDir.None? {
      return Noted;
    }
    if |path| < 2 {
      return Raised(IndexError);
    }
    if renameDir.value.ondisk {
      var k := FileIndex(renameDir.value.files, path[1]);
      if k.Some? && renameDir.value.files[k.value].ondisk {
        tree.PutFile(path[0], k.value, renameDir.value.files[k.value].(name := Named(msg.data.renameDest)));
      } else if k.Some? {
        // the rename overtook its touch: sync the entry here
        var rfile := renameDir.value.files[k.value];
        rfile := rfile.(ondisk := true, name := Named(msg.data.renameDest), creationTime := Some(msg.timestamp));
        tree.PutFile(path[0], k.value, rfile);
      }
    }
    out := Noted;
  }

  method RenameExistSuccess(tree: DirTree, msg: Response) returns (out: Outcome)
    modifies tree
    ensures Expected.Step(tree.State(), out) == Expected.RenameExistSuccess(old(tree.State()), msg)
  {
    var srcPath := Split(msg.data.renameSource, '/')[1..];  // folder:file
    var dstPath := Split(msg.data.renameDest, '/')[1..];  // folder:file
    if |srcPath| < 1 || |dstPath| < 1 || |srcPath| < 2 {
      return Raised(IndexError);
    }
    var srcRenameDir := tree.GetDirByName(srcPath[0]);
    var dstPresent := dstPath[0] in tree.dirs;
    // As written: the source FILE name is looked up as a directory, and that lookup's result
    // (a directory node or None) becomes the destination file's name below.
    var srcRenameFile := if srcPath[1] in tree.dirs then DirRef(srcPath[1]) else NoName;
    // First the source file is deleted.
    if srcRenameDir.Some? && srcRenameDir.value.ondisk {
      var k := FileIndex(srcRenameDir.value.files, srcPath[1]);
      if k.Some? && srcRenameDir.value.files[k.value].ondisk {
        tree.PutFile(srcPath[0], k.value, srcRenameDir.value.files[k.value].(ondisk := false));
      }
    }
    ghost var mid := tree.State();
    // Then the destination file is renamed; the destination node is read after the deletion, as
    // the two may be the same Python object.
    if !dstPresent {
      return Noted;
    }
    if |dstPath| < 2 {
      return Raised(IndexError);
    }
    var dstRenameDir := tree.dirs[dstPath[0]];
    if dstRenameDir.ondisk {
      var k := FileIndex(dstRenameDir.files, dstPath[1]);
      if k.Some? && dstRenameDir.files[k.value].ondisk {
        tree.PutFile(dstPath[0], k.value, dstRenameDir.files[k.value].(name := srcRenameFile));
      } else if k.Some? {
        var fileToRename := dstRenameDir.files[k.value];
        fileToRename := fileToRename.(ondisk := true, name := srcRenameFile, creationTime := Some(msg.timestamp));
        tree.PutFile(dstPath[0], k.value, fileToRename);
      }
    }
    out := Noted;
  }

  // ---------------------------------------------------------------- failure handlers

  method MkdirFail(tree: DirTree, msg: Response) returns (out: Outcome)
    ensures Expected.Step(tree.State(), out) == Expected.Fail(Mkdir, tree.State(), msg, tree.hexKey, Fresh("", "", []))
  {
    if msg.errorCode == NoTarget || msg.errorCode == EEXIST {
      return Quiet;
    }
    out := GenericErrorHandler(msg);
  }

  method TouchFail(tree: DirTree, msg: Response, random: Fresh) returns (out: Outcome)
    modifies tree
    ensures Expected.Step(tree.State(), out) == Expected.Fail(Touch, old(tree.State()), msg, tree.hexKey, random)
  {
    if msg.errorCode == NoTarget || msg.errorCode == EEXIST {
      return Quiet;
    }
    var parts := Split(msg.target, '/');
    if msg.errorCode == MaxDirSize {
      if |parts| < 2 {
        return Raised(IndexError);
      }
      var rdirName := parts[1];  // get target folder name from path
      var found := tree.RemoveDirByName(rdirName);
      if !found {
        // NodeIDAbsentError: already removed from the active directories
        return Noted;
      }
      var nodeIndex := IndexOf(tree.syncedNodes, tree.hexKey(rdirName));
      if nodeIndex.None? {
        return Raised(ValueError);
      }
      tree.syncedNodes := RemoveAt(tree.syncedNodes, nodeIndex.value);
      nodeIndex := IndexOf(tree.nids, tree.hexKey(rdirName));
      if nodeIndex.None? {
        return Raised(ValueError);
      }
      tree.nids := RemoveAt(tree.nids, nodeIndex.value);
      tree.AppendNode(random.dirName, random.fileNames);
      out := Noted;
    } else if msg.errorCode == ENOENT {
      if |parts| < 5 {
        return Raised(IndexError);
      }
      var rdirName, rfileName := parts[3], parts[4];
      var rdir := tree.GetDirByName(rdirName);
      out := Quiet;
      if rdir.Some? && rdir.value.ondisk {
        if rdir.value.creationTime.None? {
          // `error_time > None`
          return Raised(TypeError);
        }
        if msg.timestamp > rdir.value.creationTime.value {
          out := Flagged(VerifyFailed(msg.action, rdirName, rfileName, false));
        } else {
          out := Noted;
        }
      }
    } else {
      out := GenericErrorHandler(msg);
    }
  }

  method ListFail(tree: DirTree, msg: Response) returns (out: Outcome)
    ensures Expected.Step(tree.State(), out) == Expected.Fail(List, tree.State(), msg, tree.hexKey, Fresh("", "", []))
  {
    if msg.errorCode == NoTarget || msg.errorCode == EEXIST {
      return Quiet;
    }
    if msg.errorCode == ENOENT {
      out := Quiet;
    } else {
      out := GenericErrorHandler(msg);
    }
  }

  /** The ENOENT branch the stat, read, write, delete, rename and rename_exist failure handlers share. */
  method FileEnoent(tree: DirTree, msg: Response) returns (out: Outcome)
    modifies tree
    ensures Expected.Step(tree.State(), out) == Expected.FileEnoent(old(tree.State()), msg)
  {
    var parts := Split(msg.target, '/');
    if |parts| < 5 {
      return Raised(IndexError);
    }
    var rdirName, rfileName := parts[3], parts[4];
    var rdir := tree.GetDirByName(rdirName);
    if rdir.None? {
      return Noted;
    }
    var k := FileIndex(rdir.value.files, rfileName);
    if k.None? || !rdir.value.files[k.value].ondisk {
      return Noted;
    }
    var rfile := rdir.value.files[k.value];
    if rfile.creationTime.None? {
      // `error_time > None`
      return Raised(TypeError);
    }
    out := Quiet;
    if msg.timestamp > rfile.creationTime.value {
      out := Flagged(VerifyFailed(msg.action, rdirName, rfileName, true));
      tree.PutFile(rdirName, k.value, rfile.(ondisk := false));
    }
  }

  method StatFail(tree: DirTree, msg: Response) returns (out: Outcome)
    modifies tree
    ensures Expected.Step(tree.State(), out) == Expected.Fail(Stat, old(tree.State()), msg, tree.hexKey, Fresh("", "", []))
  {
    if msg.errorCode == NoTarget || msg.errorCode == EEXIST || msg.errorCode == ESTALE {
      return Quiet;
    }
    if msg.errorCode == ENOENT {
      out := FileEnoent(tree, msg);
    } else {
      out := GenericErrorHandler(msg);
    }
  }

  method ReadFail(tree: DirTree, msg: Response) returns (out: Outcome)
    modifies tree
    ensures Expected.Step(tree.State(), out) == Expected.Fail(Read, old(tree.State()), msg, tree.hexKey, Fresh("", "", []))
  {
    if msg.errorCode == NoTarget || msg.errorCode == EEXIST || msg.errorCode == ZeroSize || msg.errorCode == ESTALE {
      return Quiet;
    }
    if msg.errorCode == ENOENT {
      out := FileEnoent(tree, msg);
    } else {
      out := GenericErrorHandler(msg);
    }
  }

  method WriteFail(tree: DirTree, msg: Response) returns (out: Outcome)
    modifies tree
    ensures Expected.Step(tree.State(), out) == Expected.Fail(Write, old(tree.State()), msg, tree.hexKey, Fresh("", "", []))
  {
    if msg.errorCode == NoTarget || msg.errorCode == EEXIST || msg.errorCode == ESTALE {
      return Quiet;
    }
    if msg.errorCode == ENOENT {
      out := FileEnoent(tree, msg);
    } else {
      out := GenericErrorHandler(msg);
    }
  }

  method DeleteFail(tree: DirTree, msg: Response) returns (out: Outcome)
    modifies tree
    ensures Expected.Step(tree.State(), out) == Expected.Fail(Delete, old(tree.State()), msg, tree.hexKey, Fresh("", "", []))
  {
    if msg.errorCode == NoTarget || msg.errorCode == EEXIST || msg.errorCode == ESTALE {
      return Quiet;
    }
    if msg.errorCode == ENOENT {
      out := FileEnoent(tree, msg);
    } else {
      out := GenericErrorHandler(msg);
    }
  }

  method RenameFail(tree: DirTree, msg: Response) returns (out: Outcome)
    modifies tree
    ensures Expected.Step(tree.State(), out) == Expected.Fail(Rename, old(tree.State()), msg, tree.hexKey, Fresh("", "", []))
  {
    if msg.errorCode == NoTarget || msg.errorCode == EEXIST || msg.errorCode == ESTALE {
      return Quiet;
    }
    if msg.errorCode == ENOENT {
      out := FileEnoent(tree, msg);
    } else {
      out := GenericErrorHandler(msg);
    }
  }

  method RenameExistFail(tree: DirTree, msg: Response) returns (out: Outcome)
    modifies tree
    ensures Expected.Step(tree.State(), out) == Expected.Fail(RenameExist, old(tree.State()), msg, tree.hexKey, Fresh("", "", []))
  {
    if msg.errorCode == NoTarget || msg.errorCode == EEXIST || msg.errorCode == ESTALE {
      return Quiet;
    }
    if msg.errorCode == SameFile {
      return Quiet;
    }
    if msg.errorCode == ENOENT {
      out := FileEnoent(tree, msg);
    } else {
      out := GenericErrorHandler(msg);
    }
  }

  // ---------------------------------------------------------------- dispatch

  /** `response_action`: routes the outcome to its handler, and keeps the tree's invariant. */
  method ResponseAction(tree: DirTree, msg: Response, random: Fresh) returns (out: Outcome)
    modifies tree
    ensures Expected.Step(tree.State(), out) == Expected.ResponseAction(old(tree.State()), msg, tree.hexKey, random)
    ensures old(tree.Valid()) ==> tree.Valid()
  {
    var action := ResponseActions(msg.action);
    if action.None? {
      // the dictionary lookup raises KeyError
      return Raised(KeyError);
    }
    if msg.result == "success" {
      match action.value
      case Mkdir => out := MkdirSuccess(tree, msg);
      case Touch => out := TouchSuccess(tree, msg, random.token);
      case List => out := Quiet;
      case Stat => out := Quiet;
      case Read => out := ReadSuccess(tree, msg);
      case Write => out := WriteSuccess(tree, msg);
      case Delete => out := DeleteSuccess(tree, msg);
      case Rename => out := RenameSuccess(tree, msg);
      case RenameExist => out := RenameExistSuccess(tree, msg);
    } else {
      match action.value
      case Mkdir => out := MkdirFail(tree, msg);
      case Touch => out := TouchFail(tree, msg, random);
      case List => out := ListFail(tree, msg);
      case Stat => out := StatFail(tree, msg);
      case Read => out := ReadFail(tree, msg);
      case Write => out := WriteFail(tree, msg);
      case Delete => out := DeleteFail(tree, msg);
      case Rename => out := RenameFail(tree, msg);
      case RenameExist => out := RenameExistFail(tree, msg);
    }
    if old(tree.Valid()) {
      ExpectedProps.ResponseActionKeepsValid(old(tree.State()), msg, tree.hexKey, random);
    }
  }
}
