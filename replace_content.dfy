/**
 * The `replace_content` tool: run a list of find/replace operations over
 * each of several files in turn, keeping a per-file count, and write a
 * file back only when its content changed.
 */
module ReplaceContent {
  import opened Common
  import opened PathUtils
  import opened BatchOrder
  import opened Literal

  datatype ReplaceOp = ReplaceOp(search: string, replace: string, useRegex: bool, ignoreCase: bool)

  datatype ReplaceResult = ReplaceResult(file: string, replacements: nat, modified: bool, error: Option<string>)

  const InvalidOperations := McpError(InvalidParams, "Invalid or empty required parameter: operations (must be a non-empty array of {search: string, replace: string, use_regex?: boolean, ignore_case?: boolean} objects)")
  const NotAFile := "Path is not a file"
  const FileNotFound := "File not found"

  /** An entry the validation accepts: an object with string `search` and `replace`. */
  predicate ValidOperation(j: Json)
  {
    && j.JObj?
    && "search" in j.fields && j.fields["search"].JStr?
    && "replace" in j.fields && j.fields["replace"].JStr?
  }

  function ToOperation(j: Json): (r: ReplaceOp)
    requires ValidOperation(j)
    ensures JStr(r.search) == j.fields["search"] && JStr(r.replace) == j.fields["replace"]
    ensures "use_regex" !in j.fields ==> !r.useRegex
    ensures "ignore_case" !in j.fields ==> !r.ignoreCase
    ensures r.useRegex <==> "use_regex" in j.fields && Truthy(j.fields["use_regex"])
    ensures r.ignoreCase <==> "ignore_case" in j.fields && Truthy(j.fields["ignore_case"])
  {
    ReplaceOp(j.fields["search"].s, j.fields["replace"].s, FlagSet(j.fields, "use_regex"), FlagSet(j.fields, "ignore_case"))
  }

  /** The `operations` argument when it is a non-empty array of valid entries. */
  function Operations(args: Json): (r: Option<seq<ReplaceOp>>)
    ensures r.Some? <==>
      && Field(args, "operations").Some? && Field(args, "operations").value.JArr?
      && |Field(args, "operations").value.items| > 0
      && forall i :: 0 <= i < |Field(args, "operations").value.items| ==> ValidOperation(Field(args, "operations").value.items[i])
    ensures r.Some? ==>
      var entries := Field(args, "operations").value.items;
      |r.value| == |entries| && forall i :: 0 <= i < |entries| ==> r.value[i] == ToOperation(entries[i])
  {
    match Field(args, "operations")
    case Some(JArr(entries)) =>
      if |entries| > 0 && forall i :: 0 <= i < |entries| ==> ValidOperation(entries[i]) then
        Some(seq(|entries|, i requires 0 <= i < |entries| && ValidOperation(entries[i]) => ToOperation(entries[i])))
      else None
    case _ => None
  }

  /**
   * An operation whose effect the model states itself: literal, case
   * sensitive, and with no `$` in the replacement.
   */
  predicate Plain(op: ReplaceOp)
  {
    !op.useRegex && !op.ignoreCase && '$' !in op.replace
  }

  /**
   * What building the pattern, `match` and `replace` give for one
   * operation. Regular expressions, case folding and `$` patterns come
   * from `engine`, which may also throw (an invalid pattern).
   */
  function OpOutcome(content: string, op: ReplaceOp, engine: (string, ReplaceOp) -> Outcome<Replaced>): (r: Outcome<Replaced>)
    ensures Plain(op) ==> r == Done(LiteralReplace(content, op.search, op.replace))
  {
    if Plain(op) then Done(LiteralReplace(content, op.search, op.replace)) else engine(content, op)
  }

  /** The state of a file's operation loop: its content, the count so far, and what was thrown. */
  datatype Applied = Applied(text: string, total: nat, failure: Option<FsError>)

  /** One pass of the operation loop; the content changes only when there were matches. */
  function Step(a: Applied, op: ReplaceOp, engine: (string, ReplaceOp) -> Outcome<Replaced>): Applied
  {
    if a.failure.Some? then a
    else
      match OpOutcome(a.text, op, engine)
      case Fails(e) => Applied(a.text, a.total, Some(e))
      case Done(r) => if r.count > 0 then Applied(r.text, a.total + r.count, None) else a
  }

  /** The operations applied in list order, each to the previous one's output, from `content`. */
  function ApplyAll(content: string, ops: seq<ReplaceOp>, engine: (string, ReplaceOp) -> Outcome<Replaced>): Applied
    decreases |ops|
  {
    if ops == [] then Applied(content, 0, None)
    else Step(ApplyAll(content, ops[..|ops| - 1], engine), ops[|ops| - 1], engine)
  }

  /** Running `a` and then `b`: content threads through, counts add, a throw stops. */
  function Then(x: Applied, y: Applied): Applied
  {
    if x.failure.Some? then x else Applied(y.text, x.total + y.total, y.failure)
  }

  /** The inner loop over the operations of one file. */
  method ApplyOperations(content: string, ops: seq<ReplaceOp>, engine: (string, ReplaceOp) -> Outcome<Replaced>)
    returns (text: string, total: nat, failure: Option<FsError>)
    ensures Applied(text, total, failure) == ApplyAll(content, ops, engine)
  {
    text, total, failure := content, 0, None;
    var k := 0;
    while k < |ops|
      invariant 0 <= k <= |ops|
      invariant failure.None?
      invariant Applied(text, total, failure) == ApplyAll(content, ops[..k], engine)
    {
      assert ops[..k + 1][..k] == ops[..k];
      var outcome := OpOutcome(text, ops[k], engine);
      if outcome.Fails? {
        failure := Some(outcome.err);
        FailureSticks(content, ops, k + 1, engine);
        assert ops[..|ops|] == ops;
        return;
      }
      var replacementsInOp := outcome.value.count;
      if replacementsInOp > 0 {
        text := outcome.value.text;
        total := total + replacementsInOp;
      }
      k := k + 1;
    }
    assert ops[..k] == ops;
  }

  /** Once an operation has thrown, the later ones change nothing. */
  lemma {:induction false} FailureSticks(content: string, ops: seq<ReplaceOp>, k: nat, engine: (string, ReplaceOp) -> Outcome<Replaced>)
    requires k <= |ops| && ApplyAll(content, ops[..k], engine).failure.Some?
    ensures ApplyAll(content, ops, engine) == ApplyAll(content, ops[..k], engine)
    decreases |ops| - k
  {
    if k < |ops| {
      assert ops[..k + 1][..k] == ops[..k];
      FailureSticks(content, ops, k + 1, engine);
    } else {
      assert ops[..k] == ops;
    }
  }

  /**
   * Applying `a + b` is applying `a` and then `b` to its output: the
   * operations run in sequence and the counts add up.
   */
  lemma {:induction false} ApplyAppend(content: string, a: seq<ReplaceOp>, b: seq<ReplaceOp>, engine: (string, ReplaceOp) -> Outcome<Replaced>)
    ensures ApplyAll(content, a + b, engine) == Then(ApplyAll(content, a, engine), ApplyAll(ApplyAll(content, a, engine).text, b, engine))
    decreases |b|
  {
    if b == [] {
      assert a + b == a;
    } else {
      var b' := b[..|b| - 1];
      assert (a + b)[..|a + b| - 1] == a + b';
      ApplyAppend(content, a, b', engine);
    }
  }

  /**
   * The `catch` block: the record for what was thrown, or `None` when
   * reading `.code` of a `null` rejection throws a `TypeError`.
   */
  function Caught(file: string, replacements: nat, modified: bool, t: Thrown): (r: Option<ReplaceResult>)
    ensures r.None? <==> t == FromFs(Nullish)
    ensures r.Some? ==> r.value.file == file && r.value.replacements == replacements && r.value.modified == modified && r.value.error.Some?
    ensures t.FromResolve? ==> r == Some(ReplaceResult(file, replacements, modified, Some(ErrorMessage(t.err))))
  {
    match HasCode(t, "ENOENT")
    case None => None
    case Some(true) => Some(ReplaceResult(file, replacements, modified, Some(FileNotFound)))
    case Some(false) =>
      if t.FromResolve? then Some(ReplaceResult(file, replacements, modified, Some(ErrorMessage(t.err))))
      else Some(ReplaceResult(file, replacements, modified, Some("Failed to process file: " + MessageOf(t))))
  }

  /**
   * The record the `finally` block pushes for path `p`, or `None` when the
   * `catch` block throws. `stat` is what `fs.stat` does (`Done(f)`: `f` is
   * `isFile()`), `read` what `fs.readFile` does, and `write` what
   * `fs.writeFile` does; each is consulted only if reached.
   */
  function FileRecord(root: seq<string>, p: string, ops: seq<ReplaceOp>, engine: (string, ReplaceOp) -> Outcome<Replaced>,
                      stat: Outcome<bool>, read: Outcome<string>, write: Option<FsError>): (r: Option<ReplaceResult>)
    requires ValidRoot(root)
    ensures r.Some? ==> r.value.file == NormalizeSlashes(p)
    ensures ResolvePath(root, JStr(p)).Err? ==>
      r == Some(ReplaceResult(NormalizeSlashes(p), 0, false, Some(ErrorMessage(ResolvePath(root, JStr(p)).error))))
    ensures ResolvePath(root, JStr(p)).Ok? && stat == Done(false) ==>
      r == Some(ReplaceResult(NormalizeSlashes(p), 0, false, Some(NotAFile)))
    ensures ResolvePath(root, JStr(p)).Ok? && stat.Fails? && stat.err.Errno? && stat.err.code == "ENOENT" ==>
      r == Some(ReplaceResult(NormalizeSlashes(p), 0, false, Some(FileNotFound)))
    ensures r.Some? && r.value.modified ==>
      ResolvePath(root, JStr(p)).Ok? && stat == Done(true) && read.Done? && ApplyAll(read.value, ops, engine).text != read.value
    ensures r.Some? && r.value.replacements > 0 ==>
      ResolvePath(root, JStr(p)).Ok? && stat == Done(true) && read.Done? && r.value.replacements == ApplyAll(read.value, ops, engine).total
    ensures ResolvePath(root, JStr(p)).Ok? && stat == Done(true) && read.Done? && ApplyAll(read.value, ops, engine).failure.None? ==>
      var a := ApplyAll(read.value, ops, engine);
      r.Some? ==> r.value.replacements == a.total && (r.value.modified <==> a.text != read.value)
  {
    var pathOutput := NormalizeSlashes(p);
    var target := ResolvePath(root, JStr(p));
    if target.Err? then Caught(pathOutput, 0, false, FromResolve(target.error))
    else if stat.Fails? then Caught(pathOutput, 0, false, FromFs(stat.err))
    else if !stat.value then Some(ReplaceResult(pathOutput, 0, false, Some(NotAFile)))
    else if read.Fails? then Caught(pathOutput, 0, false, FromFs(read.err))
    else
      var a := ApplyAll(read.value, ops, engine);
      if a.failure.Some? then Caught(pathOutput, a.total, false, FromFs(a.failure.value))
      else
        var modified := a.text != read.value;
        if modified && write.Some? then Caught(pathOutput, a.total, true, FromFs(write.value))
        else Some(ReplaceResult(pathOutput, a.total, modified, None))
  }

  /** The body of the outer loop for one path: stat, read, the operation loop, and the write. */
  method ProcessFile(root: seq<string>, p: string, ops: seq<ReplaceOp>, engine: (string, ReplaceOp) -> Outcome<Replaced>,
                     stat: Outcome<bool>, read: Outcome<string>, write: Option<FsError>) returns (r: Option<ReplaceResult>)
    requires ValidRoot(root)
    ensures r == FileRecord(root, p, ops, engine, stat, read, write)
  {
    var pathOutput := NormalizeSlashes(p);
    var target := ResolvePath(root, JStr(p));
    if target.Err? {
      return Caught(pathOutput, 0, false, FromResolve(target.error));
    }
    if stat.Fails? {
      return Caught(pathOutput, 0, false, FromFs(stat.err));
    }
    if !stat.value {
      return Some(ReplaceResult(pathOutput, 0, false, Some(NotAFile)));
    }
    if read.Fails? {
      return Caught(pathOutput, 0, false, FromFs(read.err));
    }
    var originalContent := read.value;
    var fileContent, totalReplacements, failure := ApplyOperations(originalContent, ops, engine);
    if failure.Some? {
      return Caught(pathOutput, totalReplacements, false, FromFs(failure.value));
    }
    var modified := false;
    if fileContent != originalContent {
      modified := true;
      if write.Some? {
        return Caught(pathOutput, totalReplacements, modified, FromFs(write.value));
      }
    }
    return Some(ReplaceResult(pathOutput, totalReplacements, modified, None));
  }

  /** The records in input order, or `None` when some file's `catch` block throws. */
  function Records(root: seq<string>, paths: seq<string>, ops: seq<ReplaceOp>, engine: (string, ReplaceOp) -> Outcome<Replaced>,
                   stat: nat -> Outcome<bool>, read: nat -> Outcome<string>, write: nat -> Option<FsError>): (r: Option<seq<ReplaceResult>>)
    requires ValidRoot(root)
    ensures r.Some? <==> forall i :: 0 <= i < |paths| ==> FileRecord(root, paths[i], ops, engine, stat(i), read(i), write(i)).Some?
    ensures r.Some? ==> |r.value| == |paths|
    ensures r.Some? ==> forall i :: 0 <= i < |paths| ==> r.value[i] == FileRecord(root, paths[i], ops, engine, stat(i), read(i), write(i)).value
  {
    if forall i :: 0 <= i < |paths| ==> FileRecord(root, paths[i], ops, engine, stat(i), read(i), write(i)).Some? then
      Some(seq(|paths|, i requires 0 <= i < |paths| => FileRecord(root, paths[i], ops, engine, stat(i), read(i), write(i)).value))
    else None
  }

  /** The comparator key: the input position of a record's file. */
  function Key(paths: seq<string>): ReplaceResult -> int
  {
    (r: ReplaceResult) => IndexOf(paths, r.file)
  }

  /**
   * `handleReplaceContent`: validate `paths` and then `operations`, process
   * the paths one after another, pushing one record per path, and sort by
   * input position. A `TypeError` escaping a `catch` block is turned into
   * an `InternalError` by the outer handler; `typeError` is its message.
   * The validation runs before that handler, so a `TypeError` from it
   * rejects the promise.
   */
  method HandleReplaceContent(root: seq<string>, args: Json, engine: (string, ReplaceOp) -> Outcome<Replaced>,
                              stat: nat -> Outcome<bool>, read: nat -> Outcome<string>, write: nat -> Option<FsError>, typeError: string)
    returns (r: Settled<Result<seq<ReplaceResult>>>)
    requires ValidRoot(root)
    ensures NonEmptyStringArray(Field(args, "paths")).None? ==> r == Fulfilled(Err(InvalidPaths))
    ensures r.Rejected? <==>
      NonEmptyStringArray(Field(args, "paths")).Some? && CheckThrows(Field(args, "operations"), ValidOperation)
    ensures NonEmptyStringArray(Field(args, "paths")).Some? && r.Fulfilled? && Operations(args).None? ==>
      r.value == Err(InvalidOperations)
    ensures NonEmptyStringArray(Field(args, "paths")).Some? && Operations(args).Some? ==>
      var recs := Records(root, NonEmptyStringArray(Field(args, "paths")).value, Operations(args).value, engine, stat, read, write);
      && r.Fulfilled?
      && (r.value.Ok? <==> recs.Some?)
      && (recs.None? ==> r.value == Err(McpError(InternalError, "Failed during replace_content: " + typeError)))
    ensures r.Fulfilled? && r.value.Ok? ==>
      var paths := NonEmptyStringArray(Field(args, "paths")).value;
      var recs := Records(root, paths, Operations(args).value, engine, stat, read, write).value;
      && |r.value.value| == |paths|
      && multiset(r.value.value) == multiset(recs)
      && r.value.value == SortBy(recs, Key(paths))
      && (Distinct(paths) && NoBackslash(paths) ==> r.value.value == recs)
  {
    var pathsArg := NonEmptyStringArray(Field(args, "paths"));
    if pathsArg.None? {
      return Fulfilled(Err(InvalidPaths));
    }
    if CheckThrows(Field(args, "operations"), ValidOperation) {
      return Rejected;
    }
    var opsArg := Operations(args);
    if opsArg.None? {
      return Fulfilled(Err(InvalidOperations));
    }
    var paths, ops := pathsArg.value, opsArg.value;
    var recs := ProcessAll(root, paths, ops, engine, stat, read, write);
    if recs.None? {
      return Fulfilled(Err(McpError(InternalError, "Failed during replace_content: " + typeError)));
    }
    var results := recs.value;
    var sorted := SortedCopy(results, Key(paths));
    if Distinct(paths) && NoBackslash(paths) {
      InputOrder(paths, results);
    }
    return Fulfilled(Ok(sorted));
  }

  /** The sequential loop over the paths: one record per path, or the first escaping `TypeError`. */
  method ProcessAll(root: seq<string>, paths: seq<string>, ops: seq<ReplaceOp>, engine: (string, ReplaceOp) -> Outcome<Replaced>,
                    stat: nat -> Outcome<bool>, read: nat -> Outcome<string>, write: nat -> Option<FsError>)
    returns (recs: Option<seq<ReplaceResult>>)
    requires ValidRoot(root)
    ensures recs == Records(root, paths, ops, engine, stat, read, write)
  {
    var results: seq<ReplaceResult> := [];
    for i := 0 to |paths|
      invariant |results| == i
      invariant forall j :: 0 <= j < i ==> FileRecord(root, paths[j], ops, engine, stat(j), read(j), write(j)) == Some(results[j])
    {
      var record := ProcessFile(root, paths[i], ops, engine, stat(i), read(i), write(i));
      if record.None? {
        assert FileRecord(root, paths[i], ops, engine, stat(i), read(i), write(i)).None?;
        return None;
      }
      ghost var prev := results;
      results := results + [record.value];
      forall j | 0 <= j <= i
        ensures FileRecord(root, paths[j], ops, engine, stat(j), read(j), write(j)) == Some(results[j])
      {
        if j < i {
          assert results[j] == prev[j];
        }
      }
    }
    ghost var all := Records(root, paths, ops, engine, stat, read, write);
    assert all.Some?;
    assert all.value == results;
    return Some(results);
  }

  /** Distinct inputs without backslashes come back in input order. */
  lemma InputOrder(paths: seq<string>, recs: seq<ReplaceResult>)
    requires Distinct(paths) && NoBackslash(paths) && |recs| == |paths|
    requires forall i :: 0 <= i < |paths| ==> recs[i].file == NormalizeSlashes(paths[i])
    ensures SortBy(recs, Key(paths)) == recs
  {
    forall i | 0 <= i < |paths|
      ensures recs[i].file == paths[i]
    {
      NormalizeSlashesIdentity(paths[i]);
    }
    IdentityKeys(paths, recs, (c: ReplaceResult) => c.file, Key(paths));
  }

  /** The write outcome matters only for a file whose content changed. */
  lemma WriteOnlyWhenModified(root: seq<string>, p: string, ops: seq<ReplaceOp>, engine: (string, ReplaceOp) -> Outcome<Replaced>,
                              stat: Outcome<bool>, read: Outcome<string>, w1: Option<FsError>, w2: Option<FsError>)
    requires ValidRoot(root)
    requires read.Done? ==> ApplyAll(read.value, ops, engine).text == read.value
    ensures FileRecord(root, p, ops, engine, stat, read, w1) == FileRecord(root, p, ops, engine, stat, read, w2)
  {
  }

  /**
   * Replacing an occurring text by itself counts the occurrences but leaves
   * the file unmodified and unwritten.
   */
  lemma CountedButUnmodified(root: seq<string>, p: string, content: string, t: string,
                             engine: (string, ReplaceOp) -> Outcome<Replaced>, write: Option<FsError>)
    requires ValidRoot(root) && ResolvePath(root, JStr(p)).Ok?
    requires t != "" && '$' !in t && Contains(content, t)
    ensures var r := FileRecord(root, p, [ReplaceOp(t, t, false, false)], engine, Done(true), Done(content), write);
      r.Some? && r.value.replacements > 0 && !r.value.modified && r.value.error.None?
  {
    var ops := [ReplaceOp(t, t, false, false)];
    var lit := LiteralReplace(content, t, t);
    SelfReplacement(content, t);
    assert lit.count > 0 && lit.text == content;
    assert ops[..0] == [];
    assert ApplyAll(content, ops, engine) == Step(Applied(content, 0, None), ops[0], engine);
    assert ApplyAll(content, ops, engine) == Applied(content, lit.count, None);
  }
}
