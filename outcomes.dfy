/** The outcome record a worker reports after running a job, the error-code taxonomy, the verdicts
    the consistency verifier emits, and the two pure pieces of the verifier: the action tables and
    `generic_error_handler`. */
module Outcomes {
  import opened Common
  import opened Paths
  import opened Namespace

  /** Action-specific fields of `data` (all that any handler reads). */
  datatype Data = Data(
    dirsize: int,
    hash: string,
    uuid: string,
    offset: int,
    chunkSize: int,
    dataPattern: string,
    repeats: int,
    renameSource: string,
    renameDest: string)

  /** The error codes a failure carries: the test's own codes and OS error numbers. */
  datatype ErrorCode = NoTarget | MaxDirSize | ZeroSize | SameFile | HashError | Errno(number: int)

  const ENOENT: ErrorCode := Errno(2)
  const EEXIST: ErrorCode := Errno(17)
  const ESTALE: ErrorCode := Errno(116)

  /** The outcome record: `result`, `action`, `target`, `timestamp`, `data`, `error_code`,
      `error_message`. */
  datatype Response = Response(
    result: string,
    action: string,
    target: string,
    timestamp: Time,
    data: Data,
    errorCode: ErrorCode,
    errorMessage: string)

  /** Random values a handler draws: the session token `uuid4().hex[-5:]` and the name and file
      names of a replacement directory. */
  datatype Fresh = Fresh(token: string, dirName: Name, fileNames: seq<Name>)

  /** Python exceptions that escape a handler. */
  datatype Exc = KeyError | IndexError | AttributeError | ValueError | TypeError

  /** What an error-level message reports. */
  datatype Report =
    | HashMismatch(fileName: FileName, stored: Option<string>, incoming: string, offset: int, chunkSize: int)
    | VerifyFailed(action: string, dir: string, file: string, invalidated: bool)
    | UnexpectedOnDir(action: string, dir: string, error: string)
    | UnexpectedOnFile(action: string, dir: string, file: string, error: string)

  /** The verdict of one handler call: nothing logged, only debug/info messages, an error-level
      message, or an exception that escaped. */
  datatype Outcome = Quiet | Noted | Flagged(report: Report) | Raised(exc: Exc)

  /** The actions both handler tables know. */
  datatype Action = Mkdir | Touch | List | Stat | Read | Write | Delete | Rename | RenameExist

  /** The key each action has in the tables. */
  function ActionName(a: Action): string {
    match a
    case Mkdir => "mkdir"
    case Touch => "touch"
    case List => "list"
    case Stat => "stat"
    case Read => "read"
    case Write => "write"
    case Delete => "delete"
    case Rename => "rename"
    case RenameExist => "rename_exist"
  }

  /** The table keys. */
  const ActionNames: set<string> :=
    {"mkdir", "touch", "list", "stat", "read", "write", "delete", "rename", "rename_exist"}

  /** `success_response_actions(action)` and `failed_response_actions(action)`: both tables have the
      same keys; `None` where the dictionary lookup raises KeyError. */
  function ResponseActions(action: string): (r: Option<Action>)
    ensures r.Some? <==> action in ActionNames
    ensures r.Some? ==> ActionName(r.value) == action
  {
    if action == "mkdir" then Some(Mkdir)
    else if action == "touch" then Some(Touch)
    else if action == "list" then Some(List)
    else if action == "stat" then Some(Stat)
    else if action == "read" then Some(Read)
    else if action == "write" then Some(Write)
    else if action == "delete" then Some(Delete)
    else if action == "rename" then Some(Rename)
    else if action == "rename_exist" then Some(RenameExist)
    else None
  }

  /** Every action is found under its own key, so the table and `ActionName` are inverse. */
  lemma ActionTableRoundTrip(a: Action)
    ensures ResponseActions(ActionName(a)) == Some(a)
  {
    match a
    case Mkdir =>
    case Touch =>
    case List =>
    case Stat =>
    case Read =>
    case Write =>
    case Delete =>
    case Rename =>
    case RenameExist =>
  }

  /** The actions served by the file-level failure handlers (ESTALE tolerated, ENOENT checked). */
  const FileActions: set<Action> := {Stat, Read, Write, Delete, Rename, RenameExist}

  /** The codes each failure handler drops at once, with nothing logged and nothing changed. */
  predicate Tolerated(a: Action, code: ErrorCode) {
    || code == NoTarget
    || code == EEXIST
    || (code == ESTALE && a in FileActions)
    || (code == ZeroSize && a == Read)
    || (code == SameFile && a == RenameExist)
  }

  /** `generic_error_handler`: an unexpected failure is always an error verdict naming the target's
      directory (`split('/')[3]`) and, when there is one, its file (`split('/')[4]`); a target too
      short to name a directory makes the handler itself raise IndexError. */
  function GenericErrorHandler(msg: Response): (out: Outcome)
    ensures out == Raised(IndexError) || out.Flagged?
    ensures out.Flagged? <==> |Split(msg.target, '/')| > 3
    ensures out.Flagged? ==> out.report.UnexpectedOnDir? || out.report.UnexpectedOnFile?
  {
    var parts := Split(msg.target, '/');
    if |parts| <= 3 then Raised(IndexError)
    else if |parts| <= 4 then Flagged(UnexpectedOnDir(msg.action, parts[3], msg.errorMessage))
    else Flagged(UnexpectedOnFile(msg.action, parts[3], parts[4], msg.errorMessage))
  }

  /** For a target built from path components, the generic verdict names exactly the fourth and
      fifth components. */
  lemma GenericNamesComponents(msg: Response, parts: seq<string>)
    requires |parts| >= 5 && forall i :: 0 <= i < |parts| ==> '/' !in parts[i]
    requires msg.target == Join(parts, '/')
    ensures GenericErrorHandler(msg) == Flagged(UnexpectedOnFile(msg.action, parts[3], parts[4], msg.errorMessage))
  {
    SplitJoin(parts, '/');
  }

  /** A target with exactly four components (no file part) gives the directory-level verdict. */
  lemma GenericNamesDirectory(msg: Response, parts: seq<string>)
    requires |parts| == 4 && forall i :: 0 <= i < |parts| ==> '/' !in parts[i]
    requires msg.target == Join(parts, '/')
    ensures GenericErrorHandler(msg) == Flagged(UnexpectedOnDir(msg.action, parts[3], msg.errorMessage))
  {
    SplitJoin(parts, '/');
  }
}
