/**
 * What `move_items` and `copy_items` share: the `operations` argument, the
 * record shape, and the classification of what the `catch` block caught.
 */
module Transfer {
  import opened Common
  import opened PathUtils
  import opened BatchOrder

  datatype TransferOp = TransferOp(source: string, destination: string)

  datatype TransferResult = TransferResult(source: string, destination: string, success: bool, error: Option<string>)

  datatype Verb = Move | Copy

  const InvalidOperations := McpError(InvalidParams, "Invalid or empty required parameter: operations (must be a non-empty array of {source: string, destination: string} objects)")

  function Infinitive(v: Verb): string
  {
    match v
    case Move => "move"
    case Copy => "copy"
  }

  function Gerund(v: Verb): string
  {
    match v
    case Move => "moving"
    case Copy => "copying"
  }

  /** The refusal for a source that resolves to the root. */
  function RootRefused(v: Verb): string
  {
    match v
    case Move => "Moving the project root is not allowed."
    case Copy => "Copying the project root is not allowed."
  }

  /** An entry the validation accepts: an object with string `source` and `destination`. */
  predicate ValidOperation(j: Json)
  {
    && j.JObj?
    && "source" in j.fields && j.fields["source"].JStr?
    && "destination" in j.fields && j.fields["destination"].JStr?
  }

  function ToOperation(j: Json): (r: TransferOp)
    requires ValidOperation(j)
    ensures JStr(r.source) == j.fields["source"] && JStr(r.destination) == j.fields["destination"]
  {
    TransferOp(j.fields["source"].s, j.fields["destination"].s)
  }

  /** The `operations` argument when it is a non-empty array of valid entries. */
  function Operations(args: Json): (r: Option<seq<TransferOp>>)
    ensures r.Some? <==>
      && Field(args, "operations").Some? && Field(args, "operations").value.JArr?
      && |Field(args, "operations").value.items| > 0
      && forall i :: 0 <= i < |Field(args, "operations").value.items| ==> ValidOperation(Field(args, "operations").value.items[i])
    ensures r.Some? ==>
      var entries := Field(args, "operations").value.items;
      |r.value| == |entries| && forall i :: 0 <= i < |entries| ==> r.value[i] == ToOperation(entries[i])
  {
    match Field(args, "operations")
    case Some(JArr(entries)) =>
      if |entries| > 0 && forall i :: 0 <= i < |entries| ==> ValidOperation(entries[i]) then
        Some(seq(|entries|, i requires 0 <= i < |entries| && ValidOperation(entries[i]) => ToOperation(entries[i])))
      else None
    case _ => None
  }

  /**
   * The source is resolved first and then the destination; the first
   * `McpError` is what the `catch` block sees.
   */
  function ResolveBoth(root: seq<string>, op: TransferOp): (r: Result<string>)
    requires ValidRoot(root)
    ensures r.Ok? <==> ResolvePath(root, JStr(op.source)).Ok? && ResolvePath(root, JStr(op.destination)).Ok?
    ensures r.Ok? ==> r.value == ResolvePath(root, JStr(op.source)).value
    ensures ResolvePath(root, JStr(op.source)).Err? ==> r == ResolvePath(root, JStr(op.source))
  {
    var source := ResolvePath(root, JStr(op.source));
    if source.Err? then source
    else
      var destination := ResolvePath(root, JStr(op.destination));
      if destination.Err? then Err(destination.error) else source
  }

  /**
   * The `catch` block: the error text for what was thrown, or `None` when
   * reading `.code` of a `null` rejection throws and the promise rejects.
   * Codes are tested before the `McpError` check.
   */
  function Failure(v: Verb, op: TransferOp, t: Thrown): (r: Option<string>)
    ensures r.None? <==> t == FromFs(Nullish)
    ensures t.FromResolve? ==> r == Some(ErrorMessage(t.err))
    ensures t.FromFs? && t.fsErr.Errno? && t.fsErr.code == "ENOENT" ==> r == Some("Source path not found: " + op.source)
    ensures t.FromFs? && t.fsErr.Errno? && (t.fsErr.code == "EPERM" || t.fsErr.code == "EACCES") ==>
      r == Some("Permission denied " + Gerund(v) + " '" + op.source + "' to '" + op.destination + "'.")
    ensures t.FromFs? && t.fsErr.NoCode? ==> r == Some("Failed to " + Infinitive(v) + " item: " + t.fsErr.message)
  {
    match HasCode(t, "ENOENT")
    case None => None
    case Some(true) => Some("Source path not found: " + op.source)
    case Some(false) =>
      if HasCode(t, "EPERM") == Some(true) || HasCode(t, "EACCES") == Some(true) then
        Some("Permission denied " + Gerund(v) + " '" + op.source + "' to '" + op.destination + "'.")
      else if t.FromResolve? then Some(ErrorMessage(t.err))
      else Some("Failed to " + Infinitive(v) + " item: " + MessageOf(t))
  }

  /** The settled value of an operation that threw `t`. */
  function Failed(v: Verb, op: TransferOp, t: Thrown): Settled<TransferResult>
  {
    match Failure(v, op, t)
    case None => Rejected
    case Some(e) => Fulfilled(TransferResult(NormalizeSlashes(op.source), NormalizeSlashes(op.destination), false, Some(e)))
  }

  /** The record for a rejected promise. */
  function Fallback(op: TransferOp): TransferResult
  {
    TransferResult(NormalizeSlashes(op.source), NormalizeSlashes(op.destination), false, Some(UnexpectedError))
  }
}
