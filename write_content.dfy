/**
 * The `write_content` tool: write or append text to several files, one
 * record per item. Records are ordered by the first item whose path,
 * with `\` turned into `/`, is the record's path.
 */
module WriteContent {
  import opened Common
  import opened PathUtils
  import opened BatchOrder

  datatype WriteItem = WriteItem(path: string, content: string, append: bool)

  datatype Operation = Written | Appended

  datatype WriteResult = WriteResult(path: string, success: bool, operation: Option<Operation>, error: Option<string>)

  const InvalidItems := McpError(InvalidParams, "Invalid or empty required parameter: items (must be a non-empty array of {path: string, content: string, append?: boolean} objects)")
  const RootRefused := "Writing directly to the project root is not allowed."

  /** An entry the validation accepts: an object with string `path` and `content`. */
  predicate ValidItem(j: Json)
  {
    && j.JObj?
    && "path" in j.fields && j.fields["path"].JStr?
    && "content" in j.fields && j.fields["content"].JStr?
  }

  function ToItem(j: Json): (r: WriteItem)
    requires ValidItem(j)
    ensures JStr(r.path) == j.fields["path"] && JStr(r.content) == j.fields["content"]
    ensures "append" !in j.fields ==> !r.append
    ensures r.append <==> "append" in j.fields && Truthy(j.fields["append"])
  {
    WriteItem(j.fields["path"].s, j.fields["content"].s, FlagSet(j.fields, "append"))
  }

  /** The `items` argument when it is a non-empty array of valid entries. */
  function Items(args: Json): (r: Option<seq<WriteItem>>)
    ensures r.Some? <==>
      && Field(args, "items").Some? && Field(args, "items").value.JArr?
      && |Field(args, "items").value.items| > 0
      && forall i :: 0 <= i < |Field(args, "items").value.items| ==> ValidItem(Field(args, "items").value.items[i])
    ensures r.Some? ==>
      var entries := Field(args, "items").value.items;
      |r.value| == |entries| && forall i :: 0 <= i < |entries| ==> r.value[i] == ToItem(entries[i])
  {
    match Field(args, "items")
    case Some(JArr(entries)) =>
      if |entries| > 0 && forall i :: 0 <= i < |entries| ==> ValidItem(entries[i]) then
        Some(seq(|entries|, i requires 0 <= i < |entries| && ValidItem(entries[i]) => ToItem(entries[i])))
      else None
    case _ => None
  }

  /** The failure text for an error that is not an `McpError`. */
  function FailureText(append: bool, message: string): string
  {
    "Failed to " + (if append then "append" else "write") + " file: " + message
  }

  /**
   * One item's promise. `mkdir` is what creating the parent directory does
   * and `write` what `appendFile` or `writeFile` then does (`None`: it
   * succeeds). The `catch` block reads `.message` without checking for
   * `null`, so a `null` rejection makes the promise reject.
   */
  function WriteOne(root: seq<string>, item: WriteItem, mkdir: Option<FsError>, write: Option<FsError>): (r: Settled<WriteResult>)
    requires ValidRoot(root)
    ensures r.Rejected? <==> Operable(root, item.path) && (mkdir == Some(Nullish) || (mkdir.None? && write == Some(Nullish)))
    ensures r.Fulfilled? ==> r.value.path == NormalizeSlashes(item.path)
    ensures r.Fulfilled? ==> (r.value.success <==> Operable(root, item.path) && mkdir.None? && write.None?)
    ensures r.Fulfilled? ==> (r.value.error.Some? <==> !r.value.success)
    ensures r.Fulfilled? ==>
      r.value.operation == if !r.value.success then None else if item.append then Some(Appended) else Some(Written)
    ensures ResolvePath(root, JStr(item.path)) == Ok(RootString(root)) ==> r.Fulfilled? && r.value.error == Some(RootRefused)
    ensures ResolvePath(root, JStr(item.path)).Err? ==>
      r.Fulfilled? && r.value.error == Some(ErrorMessage(ResolvePath(root, JStr(item.path)).error))
    ensures Operable(root, item.path) && mkdir.Some? && !mkdir.value.Nullish? ==>
      r.Fulfilled? && r.value.error == Some(FailureText(item.append, mkdir.value.message))
    ensures Operable(root, item.path) && mkdir.None? && write.Some? && !write.value.Nullish? ==>
      r.Fulfilled? && r.value.error == Some(FailureText(item.append, write.value.message))
  {
    var pathOutput := NormalizeSlashes(item.path);
    var target := ResolvePath(root, JStr(item.path));
    if target.Err? then
      Fulfilled(WriteResult(pathOutput, false, None, Some(ErrorMessage(target.error))))
    else if target.value == RootString(root) then
      Fulfilled(WriteResult(pathOutput, false, None, Some(RootRefused)))
    else
      var failure := if mkdir.Some? then mkdir.value else if write.Some? then write.value else Nullish;
      if mkdir.None? && write.None? then
        Fulfilled(WriteResult(pathOutput, true, Some(if item.append then Appended else Written), None))
      else if failure.Nullish? then Rejected
      else Fulfilled(WriteResult(pathOutput, false, None, Some(FailureText(item.append, failure.message))))
  }

  /** The record for a rejected promise. */
  function Fallback(item: WriteItem): WriteResult
  {
    WriteResult(NormalizeSlashes(item.path), false, None, Some(UnexpectedError))
  }

  /** The records in input order, before the sort. */
  function Outputs(root: seq<string>, items: seq<WriteItem>, mkdir: nat -> Option<FsError>, write: nat -> Option<FsError>): (out: seq<WriteResult>)
    requires ValidRoot(root)
    ensures |out| == |items|
    ensures forall i :: 0 <= i < |items| ==> out[i].path == NormalizeSlashes(items[i].path)
  {
    var settled := seq(|items|, i requires 0 <= i < |items| => WriteOne(root, items[i], mkdir(i), write(i)));
    assert forall i :: 0 <= i < |items| ==> settled[i] == WriteOne(root, items[i], mkdir(i), write(i));
    Reconcile(settled, seq(|items|, i requires 0 <= i < |items| => Fallback(items[i])))
  }

  /** The items' paths as the records show them. */
  function ShownPaths(items: seq<WriteItem>): (r: seq<string>)
    ensures |r| == |items| && forall i :: 0 <= i < |items| ==> r[i] == NormalizeSlashes(items[i].path)
  {
    seq(|items|, i requires 0 <= i < |items| => NormalizeSlashes(items[i].path))
  }

  /** The comparator key: `findIndex` of the item whose shown path is the record's. */
  function Key(items: seq<WriteItem>): WriteResult -> int
  {
    (r: WriteResult) => IndexOf(ShownPaths(items), r.path)
  }

  /**
   * `handleWriteContent`: validate `items`, run every item, reconcile by
   * index and sort by the position of the record's shown path. The
   * validation runs outside any `try`, so a `TypeError` from it rejects
   * the handler's promise.
   */
  method HandleWriteContent(root: seq<string>, args: Json, mkdir: nat -> Option<FsError>, write: nat -> Option<FsError>)
    returns (r: Settled<Result<seq<WriteResult>>>)
    requires ValidRoot(root)
    ensures r.Rejected? <==> CheckThrows(Field(args, "items"), ValidItem)
    ensures r.Fulfilled? ==> (r.value.Err? <==> Items(args).None?)
    ensures r.Fulfilled? && r.value.Err? ==> r.value.error == InvalidItems
    ensures r.Fulfilled? && r.value.Ok? ==>
      var items := Items(args).value;
      && |r.value.value| == |items|
      && multiset(r.value.value) == multiset(Outputs(root, items, mkdir, write))
      && r.value.value == SortBy(Outputs(root, items, mkdir, write), Key(items))
    ensures r.Fulfilled? && r.value.Ok? ==>
      var items := Items(args).value;
      Distinct(ShownPaths(items)) ==> r.value.value == Outputs(root, items, mkdir, write)
  {
    if CheckThrows(Field(args, "items"), ValidItem) {
      return Rejected;
    }
    var arg := Items(args);
    if arg.None? {
      return Fulfilled(Err(InvalidItems));
    }
    var items := arg.value;
    var out := Outputs(root, items, mkdir, write);
    var sorted := SortedCopy(out, Key(items));
    if Distinct(ShownPaths(items)) {
      InputOrder(root, items, mkdir, write);
    }
    return Fulfilled(Ok(sorted));
  }

  /**
   * Records keep their input order whenever the shown paths are distinct,
   * backslashes or not, since the key looks paths up in their shown form.
   */
  lemma InputOrder(root: seq<string>, items: seq<WriteItem>, mkdir: nat -> Option<FsError>, write: nat -> Option<FsError>)
    requires ValidRoot(root) && Distinct(ShownPaths(items))
    ensures SortBy(Outputs(root, items, mkdir, write), Key(items)) == Outputs(root, items, mkdir, write)
  {
    IdentityKeys(ShownPaths(items), Outputs(root, items, mkdir, write), (w: WriteResult) => w.path, Key(items));
  }
}
