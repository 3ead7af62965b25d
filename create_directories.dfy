/**
 * The `create_directories` tool: create several directories, with their
 * missing parents, one record per input path.
 */
module CreateDirectories {
  import opened Common
  import opened PathUtils
  import opened BatchOrder

  datatype CreateResult = CreateResult(path: string, success: bool, note: Option<string>, error: Option<string>, resolvedPath: string)

  const RootRefused := "Creating the project root is not allowed."
  const AlreadyExists := "Directory already exists"
  const NotADirectory := "Path exists but is not a directory"
  const ResolutionFailed := "Resolution failed"
  const UnknownOnRejection := "Unknown on rejection"

  predicate IsErrno(e: FsError, code: string)
  {
    e.Errno? && e.code == code
  }

  /** `targetPath || 'Resolution failed'`. */
  function ShownTarget(targetPath: string): string
  {
    if targetPath == "" then ResolutionFailed else targetPath
  }

  /**
   * One item's promise. `mkdir` is what `fs.mkdir(target, {recursive: true})`
   * does (`None`: it succeeds); `stat` is what the follow-up `fs.stat` does
   * after `EEXIST` (`Done(d)`: `d` is `isDirectory()`), and is not consulted
   * otherwise.
   */
  function CreateOne(root: seq<string>, p: string, mkdir: Option<FsError>, stat: Outcome<bool>): (r: Settled<CreateResult>)
    requires ValidRoot(root)
    ensures r.Rejected? <==>
      Operable(root, p) && mkdir.Some? && (mkdir.value == Nullish || (IsErrno(mkdir.value, "EEXIST") && stat == Fails(Nullish)))
    ensures r.Fulfilled? ==> r.value.path == NormalizeSlashes(p)
    ensures r.Fulfilled? ==>
      (r.value.success <==> Operable(root, p) && (mkdir.None? || (IsErrno(mkdir.value, "EEXIST") && stat == Done(true))))
    ensures r.Fulfilled? ==> (r.value.error.Some? <==> !r.value.success)
    ensures r.Fulfilled? ==> (r.value.note.Some? <==> r.value.success && mkdir.Some?)
    ensures r.Fulfilled? && r.value.note.Some? ==> r.value.note.value == AlreadyExists
    ensures r.Fulfilled? ==>
      r.value.resolvedPath == if ResolvePath(root, JStr(p)).Ok? then ResolvePath(root, JStr(p)).value else ResolutionFailed
    ensures ResolvePath(root, JStr(p)) == Ok(RootString(root)) ==> r.Fulfilled? && r.value.error == Some(RootRefused)
    ensures ResolvePath(root, JStr(p)).Err? ==>
      r.Fulfilled? && r.value.error == Some(ErrorMessage(ResolvePath(root, JStr(p)).error))
    ensures Operable(root, p) && mkdir.Some? && IsErrno(mkdir.value, "EEXIST") && stat == Done(false) ==>
      r.Fulfilled? && r.value.error == Some(NotADirectory)
    ensures Operable(root, p) && mkdir.Some? && (IsErrno(mkdir.value, "EPERM") || IsErrno(mkdir.value, "EACCES")) ==>
      r.Fulfilled? && r.value.error == Some("Permission denied creating directory: " + mkdir.value.message)
  {
    var pathOutput := NormalizeSlashes(p);
    var target := ResolvePath(root, JStr(p));
    var targetPath := if target.Ok? then target.value else "";
    if target.Ok? && target.value == RootString(root) then
      Fulfilled(CreateResult(pathOutput, false, None, Some(RootRefused), targetPath))
    else if target.Ok? && mkdir.None? then
      Fulfilled(CreateResult(pathOutput, true, None, None, targetPath))
    else
      var thrown := if target.Err? then FromResolve(target.error) else FromFs(mkdir.value);
      match HasCode(thrown, "EEXIST")
      case None => Rejected
      case Some(true) =>
        (match stat
         case Done(isDirectory) =>
           if isDirectory then Fulfilled(CreateResult(pathOutput, true, Some(AlreadyExists), None, targetPath))
           else Fulfilled(CreateResult(pathOutput, false, None, Some(NotADirectory), targetPath))
         case Fails(statError) =>
           if statError.Nullish? then Rejected
           else Fulfilled(CreateResult(pathOutput, false, None, Some("Failed to create directory: " + statError.message), targetPath)))
      case Some(false) =>
        if HasCode(thrown, "EPERM") == Some(true) || HasCode(thrown, "EACCES") == Some(true) then
          Fulfilled(CreateResult(pathOutput, false, None, Some("Permission denied creating directory: " + MessageOf(thrown)), targetPath))
        else if thrown.FromResolve? then
          Fulfilled(CreateResult(pathOutput, false, None, Some(ErrorMessage(thrown.err)), ShownTarget(targetPath)))
        else
          Fulfilled(CreateResult(pathOutput, false, None, Some("Failed to create directory: " + MessageOf(thrown)), ShownTarget(targetPath)))
  }

  /** The record for a rejected promise. */
  function Fallback(p: string): CreateResult
  {
    CreateResult(NormalizeSlashes(p), false, None, Some(UnexpectedError), UnknownOnRejection)
  }

  /** The records in input order, before the sort. */
  function Outputs(root: seq<string>, paths: seq<string>, mkdir: nat -> Option<FsError>, stat: nat -> Outcome<bool>): (out: seq<CreateResult>)
    requires ValidRoot(root)
    ensures |out| == |paths|
    ensures forall i :: 0 <= i < |paths| ==> out[i].path == NormalizeSlashes(paths[i])
  {
    var settled := seq(|paths|, i requires 0 <= i < |paths| => CreateOne(root, paths[i], mkdir(i), stat(i)));
    assert forall i :: 0 <= i < |paths| ==> settled[i] == CreateOne(root, paths[i], mkdir(i), stat(i));
    Reconcile(settled, seq(|paths|, i requires 0 <= i < |paths| => Fallback(paths[i])))
  }

  /** The comparator key: the input position of a record's path. */
  function Key(paths: seq<string>): CreateResult -> int
  {
    (r: CreateResult) => IndexOf(paths, r.path)
  }

  /**
   * `handleCreateDirectories`: validate `paths`, run every item, reconcile
   * by index and sort by input position.
   */
  method HandleCreateDirectories(root: seq<string>, args: Json, mkdir: nat -> Option<FsError>, stat: nat -> Outcome<bool>)
    returns (r: Result<seq<CreateResult>>)
    requires ValidRoot(root)
    ensures r.Err? <==> NonEmptyStringArray(Field(args, "paths")).None?
    ensures r.Err? ==> r.error == InvalidPaths
    ensures r.Ok? ==>
      var paths := NonEmptyStringArray(Field(args, "paths")).value;
      && |r.value| == |paths|
      && multiset(r.value) == multiset(Outputs(root, paths, mkdir, stat))
      && r.value == SortBy(Outputs(root, paths, mkdir, stat), Key(paths))
    ensures r.Ok? ==>
      var paths := NonEmptyStringArray(Field(args, "paths")).value;
      Distinct(paths) && NoBackslash(paths) ==> r.value == Outputs(root, paths, mkdir, stat)
  {
    var arg := NonEmptyStringArray(Field(args, "paths"));
    if arg.None? {
      return Err(InvalidPaths);
    }
    var paths := arg.value;
    var out := Outputs(root, paths, mkdir, stat);
    var sorted := SortedCopy(out, Key(paths));
    if Distinct(paths) && NoBackslash(paths) {
      InputOrder(root, paths, mkdir, stat);
    }
    return Ok(sorted);
  }

  /** Distinct inputs without backslashes come back in input order. */
  lemma InputOrder(root: seq<string>, paths: seq<string>, mkdir: nat -> Option<FsError>, stat: nat -> Outcome<bool>)
    requires ValidRoot(root) && Distinct(paths) && NoBackslash(paths)
    ensures SortBy(Outputs(root, paths, mkdir, stat), Key(paths)) == Outputs(root, paths, mkdir, stat)
  {
    var out := Outputs(root, paths, mkdir, stat);
    forall i | 0 <= i < |paths|
      ensures out[i].path == paths[i]
    {
      NormalizeSlashesIdentity(paths[i]);
    }
    IdentityKeys(paths, out, (c: CreateResult) => c.path, Key(paths));
  }

  /**
   * Creating is idempotent in what it reports: a directory that is already
   * there counts as created, just as a fresh one does.
   */
  lemma ExistingDirectoryIsSuccess(root: seq<string>, p: string, msg: string)
    requires ValidRoot(root) && Operable(root, p)
    ensures CreateOne(root, p, Some(Errno("EEXIST", msg)), Done(true)).Fulfilled?
    ensures CreateOne(root, p, Some(Errno("EEXIST", msg)), Done(true)).value.success
    ensures CreateOne(root, p, Some(Errno("EEXIST", msg)), Done(true)).value
         == CreateOne(root, p, None, Done(true)).value.(note := Some(AlreadyExists))
  {
  }
}
