/** What each response handler does, as a function from the shadow tree before the call to the
    tree after it and the verdict. The imperative handlers in module ResponseActions are proved to
    agree with these, and the properties of the verifier are proved about them (ExpectedProps). */
module Expected {
  import opened Common
  import opened Paths
  import opened Namespace
  import opened Outcomes

  /** The tree after a handler call and the verdict of the call. */
  datatype Step = Step(state: Shadow, out: Outcome)

  /** The tree with one file entry replaced. */
  function WithFile(s: Shadow, d: Name, i: nat, f: File): (t: Shadow)
    requires d in s.dirs && i < |s.dirs[d].files|
  {
    s.(dirs := s.dirs[d := s.dirs[d].(files := s.dirs[d].files[i := f])])
  }

  // ---------------------------------------------------------------- success handlers

  /** `mkdir_success`: the directory named by the whole target becomes synced; there is no guard, so
      an untracked target makes the handler fail on `None.data` (AttributeError). */
  function MkdirSuccess(s: Shadow, msg: Response, key: Name -> string): Step {
    if msg.target !in s.dirs then Step(s, Raised(AttributeError))
    else
      var d := s.dirs[msg.target];
      Step(s.(dirs := s.dirs[msg.target := d.(size := msg.data.dirsize, ondisk := true,
                                               creationTime := Some(msg.timestamp))],
              syncedNodes := s.syncedNodes + [key(d.name)]),
           Noted)
  }

  /** The file entry confirmed by a touch. */
  function Touched(f: File, msg: Response, token: string): File {
    f.(ondisk := true, creationTime := Some(msg.timestamp), uuid := Some(token))
  }

  /** `touch_success`: target "/dir/file". The first entry named `file` in a tracked `dir` becomes
      on disk with a fresh session token, and the directory takes the reported size. */
  function TouchSuccess(s: Shadow, msg: Response, token: string): Step {
    var parts := Split(msg.target, '/');
    if |parts| < 2 then Step(s, Raised(IndexError))
    else if parts[1] !in s.dirs then
      if |parts| < 3 then Step(s, Raised(IndexError)) else Step(s, Noted)
    else
      var d := s.dirs[parts[1]];
      if |parts| < 3 then
        if d.files == [] then Step(s, Noted) else Step(s, Raised(IndexError))
      else
        match FileIndex(d.files, parts[2])
        case None => Step(s, Noted)
        case Some(i) =>
          Step(s.(dirs := s.dirs[parts[1] := d.(size := msg.data.dirsize,
                                                  files := d.files[i := Touched(d.files[i], msg, token)])]),
               Noted)
  }

  /** Where the read/write/delete/rename success handlers stop, or the file entry they reach. */
  datatype Resolved = Stop(out: Outcome) | At(dir: Name, index: nat)

  /** The common prefix of those handlers for target "/dir/file": the directory must be tracked and
      on disk and hold an entry named `file`. */
  function ResolveOnDisk(s: Shadow, target: string): (r: Resolved)
    ensures r.At? ==> r.dir in s.dirs && r.index < |s.dirs[r.dir].files|
    ensures r.Stop? ==> r.out == Noted || r.out == Raised(IndexError)
  {
    var parts := Split(target, '/');
    if |parts| < 2 then Stop(Raised(IndexError))
    else if parts[1] !in s.dirs then Stop(Noted)
    else if |parts| < 3 then Stop(Raised(IndexError))
    else if !s.dirs[parts[1]].ondisk then Stop(Noted)
    else match FileIndex(s.dirs[parts[1]].files, parts[2])
      case None => Stop(Noted)
      case Some(i) => At(parts[1], i)
  }

  /** The integrity check of `read_success`, in Python's evaluation order: a modify time that was
      never set makes the final comparison raise TypeError. */
  function ReadVerdict(f: File, msg: Response): Outcome {
    if f.dataPatternHash == Some(msg.data.hash) then Noted
    else if f.uuid != Some(msg.data.uuid) then Noted
    else match f.modifyTime
      case None => Raised(TypeError)
      case Some(mt) =>
        if msg.timestamp <= mt then
          Flagged(HashMismatch(f.name, f.dataPatternHash, msg.data.hash, msg.data.offset, msg.data.chunkSize))
        else Noted
  }

  /** `read_success`: never changes the tree. */
  function ReadSuccess(s: Shadow, msg: Response): Step {
    match ResolveOnDisk(s, msg.target)
    case Stop(o) => Step(s, o)
    case At(d, i) => Step(s, ReadVerdict(s.dirs[d].files[i], msg))
  }

  /** The file entry after a confirmed write; a write that overtook its touch also syncs the entry. */
  function Written(f: File, msg: Response): File {
    var g := f.(dataPattern := Some(msg.data.dataPattern), dataPatternLen := Some(msg.data.repeats),
                dataPatternHash := Some(msg.data.hash), dataPatternOffset := Some(msg.data.offset),
                modifyTime := Some(msg.timestamp));
    if f.ondisk then g else g.(ondisk := true, creationTime := Some(msg.timestamp))
  }

  /** `write_success`. */
  function WriteSuccess(s: Shadow, msg: Response): Step {
    match ResolveOnDisk(s, msg.target)
    case Stop(o) => Step(s, o)
    case At(d, i) => Step(WithFile(s, d, i, Written(s.dirs[d].files[i], msg)), Noted)
  }

  /** `delete_success`: only an entry believed on disk is marked removed. */
  function DeleteSuccess(s: Shadow, msg: Response): Step {
    match ResolveOnDisk(s, msg.target)
    case Stop(o) => Step(s, o)
    case At(d, i) =>
      var f := s.dirs[d].files[i];
      Step(if f.ondisk then WithFile(s, d, i, f.(ondisk := false)) else s, Noted)
  }

  /** The file entry after a confirmed rename to `name`; a rename that overtook its touch also syncs
      the entry. */
  function Renamed(f: File, name: FileName, ts: Time): File {
    if f.ondisk then f.(name := name) else f.(ondisk := true, name := name, creationTime := Some(ts))
  }

  /** `rename_success`: the entry takes the whole `rename_dest` string as its name. */
  function RenameSuccess(s: Shadow, msg: Response): Step {
    match ResolveOnDisk(s, msg.target)
    case Stop(o) => Step(s, o)
    case At(d, i) =>
      Step(WithFile(s, d, i, Renamed(s.dirs[d].files[i], Named(msg.data.renameDest), msg.timestamp)), Noted)
  }

  /** `rename_exist_success`: first the source entry is marked removed, then the destination entry is
      renamed. As written in the source, the new name is the result of looking up the source FILE
      name as a DIRECTORY (a directory node, or `None`), not the source file's name. */
  function RenameExistSuccess(s: Shadow, msg: Response): Step {
    var src := Split(msg.data.renameSource, '/');
    var dst := Split(msg.data.renameDest, '/');
    if |src| < 3 || |dst| < 2 then Step(s, Raised(IndexError))
    else
      var newName := if src[2] in s.dirs then DirRef(src[2]) else NoName;
      var s1 := match ResolveOnDisk(s, msg.data.renameSource)
        case Stop(_) => s
        case At(d, i) =>
          if s.dirs[d].files[i].ondisk then WithFile(s, d, i, s.dirs[d].files[i].(ondisk := false)) else s;
      match ResolveOnDisk(s1, msg.data.renameDest)
      case Stop(o) => Step(s1, o)
      case At(d, i) => Step(WithFile(s1, d, i, Renamed(s1.dirs[d].files[i], newName, msg.timestamp)), Noted)
  }

  /** The success table's handlers. */
  function Success(a: Action, s: Shadow, msg: Response, key: Name -> string, token: string): Step {
    match a
    case Mkdir => MkdirSuccess(s, msg, key)
    case Touch => TouchSuccess(s, msg, token)
    case List => Step(s, Quiet)
    case Stat => Step(s, Quiet)
    case Read => ReadSuccess(s, msg)
    case Write => WriteSuccess(s, msg)
    case Delete => DeleteSuccess(s, msg)
    case Rename => RenameSuccess(s, msg)
    case RenameExist => RenameExistSuccess(s, msg)
  }

  // ---------------------------------------------------------------- failure handlers

  /** ENOENT on a file action: a file entry believed on disk since before the failure is an error and
      is invalidated; an entry created after the failure is left alone without a message. */
  function FileEnoent(s: Shadow, msg: Response): Step {
    var parts := Split(msg.target, '/');
    if |parts| < 5 then Step(s, Raised(IndexError))
    else if parts[3] !in s.dirs then Step(s, Noted)
    else
      var d := s.dirs[parts[3]];
      match FileIndex(d.files, parts[4])
      case None => Step(s, Noted)
      case Some(i) =>
        var f := d.files[i];
        if !f.ondisk then Step(s, Noted)
        else match f.creationTime
          case None => Step(s, Raised(TypeError))
          case Some(ct) =>
            if msg.timestamp > ct then
              Step(WithFile(s, parts[3], i, f.(ondisk := false)),
                   Flagged(VerifyFailed(msg.action, parts[3], parts[4], true)))
            else Step(s, Quiet)
  }

  /** ENOENT on a touch: compared against the DIRECTORY's creation time, and never changes the tree. */
  function TouchEnoent(s: Shadow, msg: Response): Step {
    var parts := Split(msg.target, '/');
    if |parts| < 5 then Step(s, Raised(IndexError))
    else if parts[3] in s.dirs && s.dirs[parts[3]].ondisk then
      match s.dirs[parts[3]].creationTime
      case None => Step(s, Raised(TypeError))
      case Some(ct) =>
        if msg.timestamp > ct then Step(s, Flagged(VerifyFailed(msg.action, parts[3], parts[4], false)))
        else Step(s, Noted)
    else Step(s, Quiet)
  }

  /** MAX_DIR_SIZE on a touch: the full directory (`split('/')[1]`) is retired: removed from the tree,
      its key deleted from `synced_nodes` and then from `nids`, and a fresh directory node is
      appended. A directory already gone is skipped; a key missing from either list makes
      `list.index` raise ValueError after the earlier steps have taken effect. */
  function RetireDirectory(s: Shadow, msg: Response, key: Name -> string, random: Fresh): Step {
    var parts := Split(msg.target, '/');
    if |parts| < 2 then Step(s, Raised(IndexError))
    else
      var r := parts[1];
      if r !in s.dirs then Step(s, Noted)
      else
        var s1 := s.(dirs := s.dirs - {r});
        match IndexOf(s1.syncedNodes, key(r))
        case None => Step(s1, Raised(ValueError))
        case Some(i) =>
          var s2 := s1.(syncedNodes := RemoveAt(s1.syncedNodes, i));
          match IndexOf(s2.nids, key(r))
          case None => Step(s2, Raised(ValueError))
          case Some(j) =>
            Step(Appended(s2.(nids := RemoveAt(s2.nids, j)), key, random.dirName, random.fileNames), Noted)
  }

  /** The failure table's handlers: tolerated codes first, then the action's own rules, then the
      generic handler. */
  function Fail(a: Action, s: Shadow, msg: Response, key: Name -> string, random: Fresh): Step {
    var code := msg.errorCode;
    if Tolerated(a, code) then Step(s, Quiet)
    else
      match a
      case Mkdir => Step(s, GenericErrorHandler(msg))
      case Touch =>
        if code == MaxDirSize then RetireDirectory(s, msg, key, random)
        else if code == ENOENT then TouchEnoent(s, msg)
        else Step(s, GenericErrorHandler(msg))
      case List => if code == ENOENT then Step(s, Quiet) else Step(s, GenericErrorHandler(msg))
      case _ => if code == ENOENT then FileEnoent(s, msg) else Step(s, GenericErrorHandler(msg))
  }

  /** `response_action`: the success table when `result == "success"`, the failure table otherwise;
      an action neither table knows is a KeyError. */
  function ResponseAction(s: Shadow, msg: Response, key: Name -> string, random: Fresh): Step {
    match ResponseActions(msg.action)
    case None => Step(s, Raised(KeyError))
    case Some(a) =>
      if msg.result == "success" then Success(a, s, msg, key, random.token) else Fail(a, s, msg, key, random)
  }
}
