/**
 * The `read_content` tool: read several files as UTF-8 text, one record
 * per input path, each holding either the content or an error.
 */
module ReadContent {
  import opened Common
  import opened PathUtils
  import opened BatchOrder

  datatype ReadResult = ReadResult(path: string, content: Option<string>, error: Option<string>)

  const NotAFile := "Path is not a file"
  const FileNotFound := "File not found"

  predicate IsEnoent<T>(o: Outcome<T>)
  {
    o.Fails? && o.err.Errno? && o.err.code == "ENOENT"
  }

  /**
   * One item's promise. `stat` is what `fs.stat` does (`Done(f)`: `f` is
   * `isFile()`), and `read` what `fs.readFile` then does; it is consulted
   * only for a file. There is no root check: the root is a directory.
   */
  function ReadOne(root: seq<string>, p: string, stat: Outcome<bool>, read: Outcome<string>): (r: Settled<ReadResult>)
    requires ValidRoot(root)
    ensures r.Rejected? <==>
      ResolvePath(root, JStr(p)).Ok? && (stat == Fails(Nullish) || (stat == Done(true) && read == Fails(Nullish)))
    ensures r.Fulfilled? ==> r.value.path == NormalizeSlashes(p)
    ensures r.Fulfilled? ==> (r.value.content.Some? <==> r.value.error.None?)
    ensures r.Fulfilled? ==>
      (r.value.content.Some? <==> ResolvePath(root, JStr(p)).Ok? && stat == Done(true) && read.Done?)
    ensures r.Fulfilled? && r.value.content.Some? ==> r.value.content.value == read.value
    ensures ResolvePath(root, JStr(p)).Ok? && stat == Done(false) ==> r == Fulfilled(ReadResult(NormalizeSlashes(p), None, Some(NotAFile)))
    ensures ResolvePath(root, JStr(p)).Err? ==>
      r == Fulfilled(ReadResult(NormalizeSlashes(p), None, Some(ErrorMessage(ResolvePath(root, JStr(p)).error))))
    ensures ResolvePath(root, JStr(p)).Ok? && (IsEnoent(stat) || (stat == Done(true) && IsEnoent(read))) ==>
      r == Fulfilled(ReadResult(NormalizeSlashes(p), None, Some(FileNotFound)))
  {
    var pathOutput := NormalizeSlashes(p);
    var target := ResolvePath(root, JStr(p));
    var thrown :=
      if target.Err? then Some(FromResolve(target.error))
      else if stat.Fails? then Some(FromFs(stat.err))
      else if stat.value && read.Fails? then Some(FromFs(read.err))
      else None;
    match thrown
    case None =>
      if !stat.value then Fulfilled(ReadResult(pathOutput, None, Some(NotAFile)))
      else Fulfilled(ReadResult(pathOutput, Some(read.value), None))
    case Some(t) =>
      match HasCode(t, "ENOENT")
      case None => Rejected
      case Some(true) => Fulfilled(ReadResult(pathOutput, None, Some(FileNotFound)))
      case Some(false) =>
        if t.FromResolve? then Fulfilled(ReadResult(pathOutput, None, Some(ErrorMessage(t.err))))
        else Fulfilled(ReadResult(pathOutput, None, Some("Failed to read file: " + MessageOf(t))))
  }

  /** The record for a rejected promise. */
  function Fallback(p: string): ReadResult
  {
    ReadResult(NormalizeSlashes(p), None, Some(UnexpectedError))
  }

  /** The records in input order, before the sort. */
  function Outputs(root: seq<string>, paths: seq<string>, stat: nat -> Outcome<bool>, read: nat -> Outcome<string>): (out: seq<ReadResult>)
    requires ValidRoot(root)
    ensures |out| == |paths|
    ensures forall i :: 0 <= i < |paths| ==> out[i].path == NormalizeSlashes(paths[i])
    ensures forall i :: 0 <= i < |paths| ==> (out[i].content.Some? <==> out[i].error.None?)
  {
    var settled := seq(|paths|, i requires 0 <= i < |paths| => ReadOne(root, paths[i], stat(i), read(i)));
    assert forall i :: 0 <= i < |paths| ==> settled[i] == ReadOne(root, paths[i], stat(i), read(i));
    Reconcile(settled, seq(|paths|, i requires 0 <= i < |paths| => Fallback(paths[i])))
  }

  /** The comparator key: the input position of a record's path. */
  function Key(paths: seq<string>): ReadResult -> int
  {
    (r: ReadResult) => IndexOf(paths, r.path)
  }

  /**
   * `handleReadContent`: validate `paths`, run every item, reconcile by
   * index and sort by input position.
   */
  method HandleReadContent(root: seq<string>, args: Json, stat: nat -> Outcome<bool>, read: nat -> Outcome<string>)
    returns (r: Result<seq<ReadResult>>)
    requires ValidRoot(root)
    ensures r.Err? <==> NonEmptyStringArray(Field(args, "paths")).None?
    ensures r.Err? ==> r.error == InvalidPaths
    ensures r.Ok? ==>
      var paths := NonEmptyStringArray(Field(args, "paths")).value;
      && |r.value| == |paths|
      && multiset(r.value) == multiset(Outputs(root, paths, stat, read))
      && r.value == SortBy(Outputs(root, paths, stat, read), Key(paths))
    ensures r.Ok? ==> forall k :: 0 <= k < |r.value| ==> (r.value[k].content.Some? <==> r.value[k].error.None?)
    ensures r.Ok? ==>
      var paths := NonEmptyStringArray(Field(args, "paths")).value;
      Distinct(paths) && NoBackslash(paths) ==> r.value == Outputs(root, paths, stat, read)
  {
    var arg := NonEmptyStringArray(Field(args, "paths"));
    if arg.None? {
      return Err(InvalidPaths);
    }
    var paths := arg.value;
    var out := Outputs(root, paths, stat, read);
    var sorted := SortedCopy(out, Key(paths));
    forall k | 0 <= k < |sorted|
      ensures sorted[k].content.Some? <==> sorted[k].error.None?
    {
      assert sorted[k] in multiset(out);
    }
    if Distinct(paths) && NoBackslash(paths) {
      InputOrder(root, paths, stat, read);
    }
    return Ok(sorted);
  }

  /** Distinct inputs without backslashes come back in input order. */
  lemma InputOrder(root: seq<string>, paths: seq<string>, stat: nat -> Outcome<bool>, read: nat -> Outcome<string>)
    requires ValidRoot(root) && Distinct(paths) && NoBackslash(paths)
    ensures SortBy(Outputs(root, paths, stat, read), Key(paths)) == Outputs(root, paths, stat, read)
  {
    var out := Outputs(root, paths, stat, read);
    forall i | 0 <= i < |paths|
      ensures out[i].path == paths[i]
    {
      NormalizeSlashesIdentity(paths[i]);
    }
    IdentityKeys(paths, out, (c: ReadResult) => c.path, Key(paths));
  }
}
