/**
 * The `copy_items` tool: copy several files or directories, creating each
 * destination's parent first. With `fs.cp` the copy is recursive; without
 * it, a directory source is refused and a file is copied with `copyFile`.
 * Record `i` belongs to operation `i`; there is no sort.
 */
module CopyItems {
  import opened Common
  import opened PathUtils
  import opened BatchOrder
  import opened Transfer

  /**
   * What the filesystem does for one operation: creating the destination's
   * parent, `fs.cp`, and, on the fallback path, `fs.stat` of the source
   * (`Done(d)`: `d` is `isDirectory()`) and `fs.copyFile`. Only the calls
   * the operation reaches are consulted.
   */
  datatype CopyCalls = CopyCalls(mkdir: Option<FsError>, cp: Option<FsError>, stat: Outcome<bool>, copyFile: Option<FsError>)

  const NoRecursiveCopy := "Recursive directory copy requires Node.js 16.7+ (fs.cp). Basic fallback cannot copy directories."

  /**
   * The first call that throws once the operation reaches the filesystem,
   * if any; `hasCp` says whether `fs.cp` is a function.
   */
  function FirstFailure(hasCp: bool, calls: CopyCalls): Option<FsError>
  {
    if calls.mkdir.Some? then calls.mkdir
    else if hasCp then calls.cp
    else if calls.stat.Fails? then Some(calls.stat.err)
    else if calls.stat.value then None
    else calls.copyFile
  }

  /** One operation's promise. */
  function CopyOne(root: seq<string>, op: TransferOp, hasCp: bool, calls: CopyCalls): (r: Settled<TransferResult>)
    requires ValidRoot(root)
    ensures r.Fulfilled? ==> r.value.source == NormalizeSlashes(op.source) && r.value.destination == NormalizeSlashes(op.destination)
    ensures r.Fulfilled? ==> (r.value.error.Some? <==> !r.value.success)
    ensures r.Fulfilled? && r.value.success <==>
      && ResolveBoth(root, op).Ok? && ResolveBoth(root, op).value != RootString(root) && calls.mkdir.None?
      && (if hasCp then calls.cp.None? else calls.stat == Done(false) && calls.copyFile.None?)
    ensures r.Rejected? <==>
      ResolveBoth(root, op).Ok? && ResolveBoth(root, op).value != RootString(root) && FirstFailure(hasCp, calls) == Some(Nullish)
    ensures ResolveBoth(root, op) == Ok(RootString(root)) ==> r.Fulfilled? && r.value.error == Some(RootRefused(Copy))
    ensures ResolveBoth(root, op).Err? ==> r.Fulfilled? && r.value.error == Some(ErrorMessage(ResolveBoth(root, op).error))
    ensures ResolveBoth(root, op).Ok? && ResolveBoth(root, op).value != RootString(root) && !hasCp && calls.mkdir.None? && calls.stat == Done(true) ==>
      r.Fulfilled? && r.value.error == Some(NoRecursiveCopy)
    ensures ResolveBoth(root, op).Ok? && ResolveBoth(root, op).value != RootString(root) && FirstFailure(hasCp, calls).Some? ==>
      r == Failed(Copy, op, FromFs(FirstFailure(hasCp, calls).value))
  {
    var resolved := ResolveBoth(root, op);
    if resolved.Err? then Failed(Copy, op, FromResolve(resolved.error))
    else if resolved.value == RootString(root) then
      Fulfilled(TransferResult(NormalizeSlashes(op.source), NormalizeSlashes(op.destination), false, Some(RootRefused(Copy))))
    else
      match FirstFailure(hasCp, calls)
      case Some(e) => Failed(Copy, op, FromFs(e))
      case None =>
        if !hasCp && calls.stat.value then
          Fulfilled(TransferResult(NormalizeSlashes(op.source), NormalizeSlashes(op.destination), false, Some(NoRecursiveCopy)))
        else Fulfilled(TransferResult(NormalizeSlashes(op.source), NormalizeSlashes(op.destination), true, None))
  }

  /** The records, index-aligned with the operations. */
  function Outputs(root: seq<string>, ops: seq<TransferOp>, hasCp: bool, calls: nat -> CopyCalls): (out: seq<TransferResult>)
    requires ValidRoot(root)
    ensures |out| == |ops|
    ensures forall i :: 0 <= i < |ops| ==>
      out[i].source == NormalizeSlashes(ops[i].source) && out[i].destination == NormalizeSlashes(ops[i].destination)
    ensures forall i :: 0 <= i < |ops| ==>
      out[i] == if CopyOne(root, ops[i], hasCp, calls(i)).Fulfilled? then CopyOne(root, ops[i], hasCp, calls(i)).value else Fallback(ops[i])
  {
    var settled := seq(|ops|, i requires 0 <= i < |ops| => CopyOne(root, ops[i], hasCp, calls(i)));
    assert forall i :: 0 <= i < |ops| ==> settled[i] == CopyOne(root, ops[i], hasCp, calls(i));
    Reconcile(settled, seq(|ops|, i requires 0 <= i < |ops| => Fallback(ops[i])))
  }

  /** `handleCopyItems`: validate `operations`, then one record per operation, in order; a `TypeError` from the validation rejects the promise. */
  function HandleCopyItems(root: seq<string>, args: Json, hasCp: bool, calls: nat -> CopyCalls): (r: Settled<Result<seq<TransferResult>>>)
    requires ValidRoot(root)
    ensures r.Rejected? <==> CheckThrows(Field(args, "operations"), ValidOperation)
    ensures r.Fulfilled? ==> (r.value.Err? <==> Operations(args).None?)
    ensures r.Fulfilled? && r.value.Err? ==> r.value.error == InvalidOperations
    ensures r.Fulfilled? && r.value.Ok? ==> |r.value.value| == |Operations(args).value|
    ensures r.Fulfilled? && r.value.Ok? ==> forall i :: 0 <= i < |r.value.value| ==>
      r.value.value[i].source == NormalizeSlashes(Operations(args).value[i].source)
      && r.value.value[i].destination == NormalizeSlashes(Operations(args).value[i].destination)
  {
    if CheckThrows(Field(args, "operations"), ValidOperation) then Rejected
    else
      match Operations(args)
      case None => Fulfilled(Err(InvalidOperations))
      case Some(ops) => Fulfilled(Ok(Outputs(root, ops, hasCp, calls)))
  }
}
