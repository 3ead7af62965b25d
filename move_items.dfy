/**
 * The `move_items` tool: rename several files or directories, creating
 * each destination's parent first. Record `i` belongs to operation `i`;
 * there is no sort.
 */
module MoveItems {
  import opened Common
  import opened PathUtils
  import opened BatchOrder
  import opened Transfer

  /**
   * One operation's promise. `mkdir` is what creating the destination's
   * parent does and `rename` what `fs.rename` then does (`None`: it
   * succeeds). Only the source is compared with the root.
   */
  function MoveOne(root: seq<string>, op: TransferOp, mkdir: Option<FsError>, rename: Option<FsError>): (r: Settled<TransferResult>)
    requires ValidRoot(root)
    ensures r.Fulfilled? ==> r.value.source == NormalizeSlashes(op.source) && r.value.destination == NormalizeSlashes(op.destination)
    ensures r.Fulfilled? ==> (r.value.error.Some? <==> !r.value.success)
    ensures r.Fulfilled? && r.value.success <==>
      ResolveBoth(root, op).Ok? && ResolveBoth(root, op).value != RootString(root) && mkdir.None? && rename.None?
    ensures r.Rejected? <==>
      ResolveBoth(root, op).Ok? && ResolveBoth(root, op).value != RootString(root)
      && (mkdir == Some(Nullish) || (mkdir.None? && rename == Some(Nullish)))
    ensures ResolveBoth(root, op) == Ok(RootString(root)) ==> r.Fulfilled? && r.value.error == Some(RootRefused(Move))
    ensures ResolveBoth(root, op).Err? ==> r.Fulfilled? && r.value.error == Some(ErrorMessage(ResolveBoth(root, op).error))
    ensures ResolveBoth(root, op).Ok? && ResolveBoth(root, op).value != RootString(root) && mkdir.Some? ==>
      r == Failed(Move, op, FromFs(mkdir.value))
    ensures ResolveBoth(root, op).Ok? && ResolveBoth(root, op).value != RootString(root) && mkdir.None? && rename.Some? ==>
      r == Failed(Move, op, FromFs(rename.value))
  {
    var resolved := ResolveBoth(root, op);
    if resolved.Err? then Failed(Move, op, FromResolve(resolved.error))
    else if resolved.value == RootString(root) then
      Fulfilled(TransferResult(NormalizeSlashes(op.source), NormalizeSlashes(op.destination), false, Some(RootRefused(Move))))
    else if mkdir.Some? then Failed(Move, op, FromFs(mkdir.value))
    else if rename.Some? then Failed(Move, op, FromFs(rename.value))
    else Fulfilled(TransferResult(NormalizeSlashes(op.source), NormalizeSlashes(op.destination), true, None))
  }

  /** The records, index-aligned with the operations. */
  function Outputs(root: seq<string>, ops: seq<TransferOp>, mkdir: nat -> Option<FsError>, rename: nat -> Option<FsError>): (out: seq<TransferResult>)
    requires ValidRoot(root)
    ensures |out| == |ops|
    ensures forall i :: 0 <= i < |ops| ==>
      out[i].source == NormalizeSlashes(ops[i].source) && out[i].destination == NormalizeSlashes(ops[i].destination)
    ensures forall i :: 0 <= i < |ops| ==>
      out[i] == if MoveOne(root, ops[i], mkdir(i), rename(i)).Fulfilled? then MoveOne(root, ops[i], mkdir(i), rename(i)).value else Fallback(ops[i])
  {
    var settled := seq(|ops|, i requires 0 <= i < |ops| => MoveOne(root, ops[i], mkdir(i), rename(i)));
    assert forall i :: 0 <= i < |ops| ==> settled[i] == MoveOne(root, ops[i], mkdir(i), rename(i));
    Reconcile(settled, seq(|ops|, i requires 0 <= i < |ops| => Fallback(ops[i])))
  }

  /** `handleMoveItems`: validate `operations`, then one record per operation, in order; a `TypeError` from the validation rejects the promise. */
  function HandleMoveItems(root: seq<string>, args: Json, mkdir: nat -> Option<FsError>, rename: nat -> Option<FsError>): (r: Settled<Result<seq<TransferResult>>>)
    requires ValidRoot(root)
    ensures r.Rejected? <==> CheckThrows(Field(args, "operations"), ValidOperation)
    ensures r.Fulfilled? ==> (r.value.Err? <==> Operations(args).None?)
    ensures r.Fulfilled? && r.value.Err? ==> r.value.error == InvalidOperations
    ensures r.Fulfilled? && r.value.Ok? ==> |r.value.value| == |Operations(args).value|
    ensures r.Fulfilled? && r.value.Ok? ==> forall i :: 0 <= i < |r.value.value| ==>
      r.value.value[i].source == NormalizeSlashes(Operations(args).value[i].source)
      && r.value.value[i].destination == NormalizeSlashes(Operations(args).value[i].destination)
  {
    if CheckThrows(Field(args, "operations"), ValidOperation) then Rejected
    else
      match Operations(args)
      case None => Fulfilled(Err(InvalidOperations))
      case Some(ops) => Fulfilled(Ok(Outputs(root, ops, mkdir, rename)))
  }

  /** The destination may be the root itself: only the source is refused there. */
  lemma DestinationRootNotRefused(root: seq<string>, op: TransferOp)
    requires ValidRoot(root) && Operable(root, op.source) && ResolvePath(root, JStr(op.destination)) == Ok(RootString(root))
    ensures MoveOne(root, op, None, None).Fulfilled? && MoveOne(root, op, None, None).value.success
  {
  }
}
