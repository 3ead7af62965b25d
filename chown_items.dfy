/**
 * The `chown_items` tool: set one owner and group on several paths, one
 * record per input path.
 */
module ChownItems {
  import opened Common
  import opened PathUtils
  import opened BatchOrder

  datatype ChownResult = ChownResult(path: string, success: bool, uid: Option<int>, gid: Option<int>, error: Option<string>)

  const InvalidUid := McpError(InvalidParams, "Invalid or missing required parameter: uid (must be a number)")
  const InvalidGid := McpError(InvalidParams, "Invalid or missing required parameter: gid (must be a number)")
  const RootRefused := "Changing ownership of the project root is not allowed."
  const PathNotFound := "Path not found"
  const NotPermitted := "Operation not permitted (Permissions or unsupported on OS)"

  /** `typeof args?.key === 'number'`, giving the number. */
  function NumberArg(args: Json, key: string): (r: Option<int>)
    ensures r.Some? <==> Field(args, key).Some? && Field(args, key).value.JNum?
    ensures r.Some? ==> Field(args, key) == Some(JNum(r.value))
  {
    match Field(args, key)
    case Some(JNum(n)) => Some(n)
    case _ => None
  }

  /**
   * One item's promise. `chown` is what `fs.chown(target, uid, gid)` does
   * (`None`: it succeeds). ENOENT is tested before EPERM, and both before
   * the `McpError` test.
   */
  function ChownOne(root: seq<string>, p: string, uid: int, gid: int, chown: Option<FsError>): (r: Settled<ChownResult>)
    requires ValidRoot(root)
    ensures r.Rejected? <==> Operable(root, p) && chown == Some(Nullish)
    ensures r.Fulfilled? ==> r.value.path == NormalizeSlashes(p)
    ensures r.Fulfilled? ==> (r.value.success <==> Operable(root, p) && chown.None?)
    ensures r.Fulfilled? ==> r.value.uid == (if r.value.success then Some(uid) else None)
    ensures r.Fulfilled? ==> r.value.gid == (if r.value.success then Some(gid) else None)
    ensures r.Fulfilled? ==> (r.value.error.Some? <==> !r.value.success)
    ensures ResolvePath(root, JStr(p)) == Ok(RootString(root)) ==> r.Fulfilled? && r.value.error == Some(RootRefused)
    ensures ResolvePath(root, JStr(p)).Err? ==> r.Fulfilled? && r.value.error == Some(ErrorMessage(ResolvePath(root, JStr(p)).error))
    ensures Operable(root, p) && chown.Some? && chown.value.Errno? && chown.value.code == "ENOENT" ==>
      r.Fulfilled? && r.value.error == Some(PathNotFound)
    ensures Operable(root, p) && chown.Some? && chown.value.Errno? && chown.value.code == "EPERM" ==>
      r.Fulfilled? && r.value.error == Some(NotPermitted)
  {
    var pathOutput := NormalizeSlashes(p);
    var target := ResolvePath(root, JStr(p));
    if target.Ok? && target.value == RootString(root) then
      Fulfilled(ChownResult(pathOutput, false, None, None, Some(RootRefused)))
    else if target.Ok? && chown.None? then
      Fulfilled(ChownResult(pathOutput, true, Some(uid), Some(gid), None))
    else
      var thrown := if target.Err? then FromResolve(target.error) else FromFs(chown.value);
      match HasCode(thrown, "ENOENT")
      case None => Rejected
      case Some(true) => Fulfilled(ChownResult(pathOutput, false, None, None, Some(PathNotFound)))
      case Some(false) =>
        if HasCode(thrown, "EPERM") == Some(true) then Fulfilled(ChownResult(pathOutput, false, None, None, Some(NotPermitted)))
        else if thrown.FromResolve? then Fulfilled(ChownResult(pathOutput, false, None, None, Some(ErrorMessage(thrown.err))))
        else Fulfilled(ChownResult(pathOutput, false, None, None, Some("Failed to change ownership: " + MessageOf(thrown))))
  }

  /** The record for a rejected promise. */
  function Fallback(p: string): ChownResult
  {
    ChownResult(NormalizeSlashes(p), false, None, None, Some(UnexpectedError))
  }

  /** The records in input order, before the sort; `chown(i)` is what `fs.chown` does for item `i`. */
  function Outputs(root: seq<string>, paths: seq<string>, uid: int, gid: int, chown: nat -> Option<FsError>): (out: seq<ChownResult>)
    requires ValidRoot(root)
    ensures |out| == |paths|
    ensures forall i :: 0 <= i < |paths| ==> out[i].path == NormalizeSlashes(paths[i])
  {
    var settled := seq(|paths|, i requires 0 <= i < |paths| => ChownOne(root, paths[i], uid, gid, chown(i)));
    assert forall i :: 0 <= i < |paths| ==> settled[i] == ChownOne(root, paths[i], uid, gid, chown(i));
    Reconcile(settled, seq(|paths|, i requires 0 <= i < |paths| => Fallback(paths[i])))
  }

  /** The comparator key: the input position of a record's path. */
  function Key(paths: seq<string>): ChownResult -> int
  {
    (r: ChownResult) => IndexOf(paths, r.path)
  }

  /**
   * `handleChownItems`: validate `paths`, then `uid`, then `gid`; run every
   * item, reconcile by index and sort by input position.
   */
  method HandleChownItems(root: seq<string>, args: Json, chown: nat -> Option<FsError>) returns (r: Result<seq<ChownResult>>)
    requires ValidRoot(root)
    ensures r.Err? <==> NonEmptyStringArray(Field(args, "paths")).None? || NumberArg(args, "uid").None? || NumberArg(args, "gid").None?
    ensures NonEmptyStringArray(Field(args, "paths")).None? ==> r == Err(InvalidPaths)
    ensures NonEmptyStringArray(Field(args, "paths")).Some? && NumberArg(args, "uid").None? ==> r == Err(InvalidUid)
    ensures NonEmptyStringArray(Field(args, "paths")).Some? && NumberArg(args, "uid").Some? && NumberArg(args, "gid").None? ==>
      r == Err(InvalidGid)
    ensures r.Ok? ==>
      var paths := NonEmptyStringArray(Field(args, "paths")).value;
      var out := Outputs(root, paths, NumberArg(args, "uid").value, NumberArg(args, "gid").value, chown);
      && |r.value| == |paths|
      && multiset(r.value) == multiset(out)
      && r.value == SortBy(out, Key(paths))
    ensures r.Ok? ==>
      var paths := NonEmptyStringArray(Field(args, "paths")).value;
      Distinct(paths) && NoBackslash(paths) ==>
        r.value == Outputs(root, paths, NumberArg(args, "uid").value, NumberArg(args, "gid").value, chown)
  {
    var arg := NonEmptyStringArray(Field(args, "paths"));
    if arg.None? {
      return Err(InvalidPaths);
    }
    var uid := NumberArg(args, "uid");
    if uid.None? {
      return Err(InvalidUid);
    }
    var gid := NumberArg(args, "gid");
    if gid.None? {
      return Err(InvalidGid);
    }
    var paths := arg.value;
    var out := Outputs(root, paths, uid.value, gid.value, chown);
    var sorted := SortedCopy(out, Key(paths));
    if Distinct(paths) && NoBackslash(paths) {
      InputOrder(root, paths, uid.value, gid.value, chown);
    }
    return Ok(sorted);
  }

  /** Distinct inputs without backslashes come back in input order. */
  lemma InputOrder(root: seq<string>, paths: seq<string>, uid: int, gid: int, chown: nat -> Option<FsError>)
    requires ValidRoot(root) && Distinct(paths) && NoBackslash(paths)
    ensures SortBy(Outputs(root, paths, uid, gid, chown), Key(paths)) == Outputs(root, paths, uid, gid, chown)
  {
    var out := Outputs(root, paths, uid, gid, chown);
    forall i | 0 <= i < |paths|
      ensures out[i].path == paths[i]
    {
      NormalizeSlashesIdentity(paths[i]);
    }
    IdentityKeys(paths, out, (c: ChownResult) => c.path, Key(paths));
  }
}
