/**
 * The `delete_items` tool: remove several files or directories, one
 * record per input path.
 */
module DeleteItems {
  import opened Common
  import opened PathUtils
  import opened BatchOrder

  datatype DeleteResult = DeleteResult(path: string, success: bool, note: Option<string>, error: Option<string>)

  const RootRefused := "Deleting the project root is not allowed."
  const NothingToDelete := "Path not found, nothing to delete"

  /**
   * One item's promise. `rm` is what `fs.rm` does for this item (`None`:
   * it succeeds). A missing path counts as deleted; a resolution error
   * becomes this item's failure; a thrown `null` or `undefined` rejects the promise.
   */
  function DeleteOne(root: seq<string>, p: string, rm: Option<FsError>): (r: Settled<DeleteResult>)
    requires ValidRoot(root)
    ensures r.Rejected? <==> Operable(root, p) && rm == Some(Nullish)
    ensures r.Fulfilled? ==> r.value.path == NormalizeSlashes(p)
    ensures r.Fulfilled? ==>
      (r.value.success <==> Operable(root, p) && (rm.None? || (rm.value.Errno? && rm.value.code == "ENOENT")))
    ensures r.Fulfilled? ==> (r.value.error.Some? <==> !r.value.success)
    ensures r.Fulfilled? ==> (r.value.note.Some? <==> r.value.success && rm.Some?)
    ensures ResolvePath(root, JStr(p)).Err? ==>
      r == Fulfilled(DeleteResult(NormalizeSlashes(p), false, None, Some(ErrorMessage(ResolvePath(root, JStr(p)).error))))
  {
    var pathOutput := NormalizeSlashes(p);
    var target := ResolvePath(root, JStr(p));
    if target.Ok? && target.value == RootString(root) then
      Fulfilled(DeleteResult(pathOutput, false, None, Some(RootRefused)))
    else if target.Ok? && rm.None? then
      Fulfilled(DeleteResult(pathOutput, true, None, None))
    else
      var thrown := if target.Err? then FromResolve(target.error) else FromFs(rm.value);
      match HasCode(thrown, "ENOENT")
      case None => Rejected
      case Some(true) => Fulfilled(DeleteResult(pathOutput, true, Some(NothingToDelete), None))
      case Some(false) =>
        if thrown.FromResolve? then Fulfilled(DeleteResult(pathOutput, false, None, Some(ErrorMessage(thrown.err))))
        else Fulfilled(DeleteResult(pathOutput, false, None, Some("Failed to delete: " + MessageOf(thrown))))
  }

  /** The record for a rejected promise. */
  function Fallback(p: string): DeleteResult
  {
    DeleteResult(NormalizeSlashes(p), false, None, Some(UnexpectedError))
  }

  /** The records in input order, before the sort. */
  function Outputs(root: seq<string>, paths: seq<string>, rm: nat -> Option<FsError>): (out: seq<DeleteResult>)
    requires ValidRoot(root)
    ensures |out| == |paths|
    ensures forall i :: 0 <= i < |paths| ==> out[i].path == NormalizeSlashes(paths[i])
  {
    var settled := seq(|paths|, i requires 0 <= i < |paths| => DeleteOne(root, paths[i], rm(i)));
    assert forall i :: 0 <= i < |paths| ==> settled[i] == DeleteOne(root, paths[i], rm(i));
    Reconcile(settled, seq(|paths|, i requires 0 <= i < |paths| => Fallback(paths[i])))
  }

  /** The comparator key: the input position of a record's path. */
  function Key(paths: seq<string>): DeleteResult -> int
  {
    (r: DeleteResult) => IndexOf(paths, r.path)
  }

  /**
   * `handleDeleteItems`: validate `paths`, run every item, reconcile by
   * index and sort by input position. `rm(i)` is what `fs.rm` does for
   * item `i`.
   */
  method HandleDeleteItems(root: seq<string>, args: Json, rm: nat -> Option<FsError>) returns (r: Result<seq<DeleteResult>>)
    requires ValidRoot(root)
    ensures r.Err? <==> NonEmptyStringArray(Field(args, "paths")).None?
    ensures r.Err? ==> r.error == InvalidPaths
    ensures r.Ok? ==>
      var paths := NonEmptyStringArray(Field(args, "paths")).value;
      && |r.value| == |paths|
      && multiset(r.value) == multiset(Outputs(root, paths, rm))
      && r.value == SortBy(Outputs(root, paths, rm), Key(paths))
    ensures r.Ok? ==>
      var paths := NonEmptyStringArray(Field(args, "paths")).value;
      Distinct(paths) && NoBackslash(paths) ==> r.value == Outputs(root, paths, rm)
  {
    var arg := NonEmptyStringArray(Field(args, "paths"));
    if arg.None? {
      return Err(InvalidPaths);
    }
    var paths := arg.value;
    var out := Outputs(root, paths, rm);
    var sorted := SortedCopy(out, Key(paths));
    if Distinct(paths) && NoBackslash(paths) {
      InputOrder(root, paths, rm);
    }
    return Ok(sorted);
  }

  /** Distinct inputs without backslashes come back in input order. */
  lemma InputOrder(root: seq<string>, paths: seq<string>, rm: nat -> Option<FsError>)
    requires ValidRoot(root) && Distinct(paths) && NoBackslash(paths)
    ensures SortBy(Outputs(root, paths, rm), Key(paths)) == Outputs(root, paths, rm)
  {
    var out := Outputs(root, paths, rm);
    forall i | 0 <= i < |paths|
      ensures out[i].path == paths[i]
    {
      NormalizeSlashesIdentity(paths[i]);
    }
    IdentityKeys(paths, out, (d: DeleteResult) => d.path, Key(paths));
  }

  /** Any path that leads to the root itself is refused, whatever `fs.rm` would do. */
  lemma RootIsRefused(root: seq<string>, p: string, rm: Option<FsError>)
    requires ValidRoot(root) && !IsAbsolute(p) && Resolved(root, p) == root
    ensures DeleteOne(root, p, rm) == Fulfilled(DeleteResult(NormalizeSlashes(p), false, None, Some(RootRefused)))
  {
    assert ResolvePath(root, JStr(p)) == Ok(RootString(root));
  }

  /** Deleting a path that does not exist reports success with a note. */
  lemma MissingIsDeleted(root: seq<string>, p: string, msg: string)
    requires ValidRoot(root) && Operable(root, p)
    ensures DeleteOne(root, p, Some(Errno("ENOENT", msg)))
         == Fulfilled(DeleteResult(NormalizeSlashes(p), true, Some(NothingToDelete), None))
  {
  }
}
