/**
 * The `edit_file` tool: validate the changes, group them by file, and for
 * every file read it, apply its changes bottom-up (descending start line,
 * ties in input order) to its lines, and report `success`, `skipped` or
 * `failed`; a successful file is written back unless it is a dry run.
 * Reading and writing are outcomes the model takes as input, and so is
 * the indentation `detect-indent` finds in a file.
 */
module EditFile {
  import opened Common
  import opened PathUtils
  import opened BatchOrder
  import opened EditLines

  datatype Args = Args(changes: seq<Change>, dryRun: bool, outputDiff: bool)

  datatype Status = Success | Failed | Skipped

  /** `EditFileResultItem` without the diff. */
  datatype FileResult = FileResult(path: string, status: Status, message: string)

  /** A file's record, and the content written to it, if any. */
  datatype FileDone = FileDone(result: FileResult, written: Option<string>)

  datatype Write = Write(path: string, content: string)

  /**
   * What the handler does: resolve with the records (and the writes it
   * made on the way), throw an `McpError`, or reject with a `TypeError`.
   */
  datatype EditReply = Replied(results: seq<FileResult>, writes: seq<Write>) | Raised(error: McpError) | Crashed

  // ---------------------------------------------------------------------
  // Arguments
  // ---------------------------------------------------------------------

  /** A `z.boolean().default(d)` field: absent gives `d`; anything but a boolean is refused. */
  function BoolField(f: map<string, Json>, key: string, default: bool): (r: Option<bool>)
    ensures key !in f ==> r == Some(default)
    ensures key in f ==> (r.Some? <==> f[key].JBool?) && (r.Some? ==> r.value == f[key].b)
  {
    if key !in f then Some(default)
    else if f[key].JBool? then Some(f[key].b)
    else None
  }

  /** A `z.string().optional()` field holds a string when present. */
  predicate OptionalString(f: map<string, Json>, key: string)
  {
    key !in f || f[key].JStr?
  }

  function StringOf(f: map<string, Json>, key: string): Option<string>
    requires OptionalString(f, key)
  {
    if key in f then Some(f[key].s) else None
  }

  /** A `z.number().int().min(1)` value. */
  predicate PositiveInt(j: Json)
  {
    j.JNum? && j.n >= 1
  }

  /** A `z.boolean().default(d)` field accepts an absent key or a boolean. */
  predicate OptionalBool(f: map<string, Json>, key: string)
  {
    key !in f || f[key].JBool?
  }

  /** The objects `EditFileChangeSchema` and its refinement accept, field by field. */
  predicate ChangeSchema(j: Json)
  {
    && j.JObj?
    && "path" in j.fields && j.fields["path"].JStr? && |j.fields["path"].s| >= 1
    && OptionalString(j.fields, "search_pattern")
    && "start_line" in j.fields && PositiveInt(j.fields["start_line"])
    && OptionalString(j.fields, "replace_content")
    && OptionalBool(j.fields, "use_regex")
    && OptionalBool(j.fields, "ignore_leading_whitespace")
    && OptionalBool(j.fields, "preserve_indentation")
    && ("match_occurrence" in j.fields ==> PositiveInt(j.fields["match_occurrence"]))
    && ("search_pattern" in j.fields || "replace_content" in j.fields)
  }

  /** `EditFileChangeSchema`, with its refinement that a search pattern or replacement text is given. */
  function ParseChange(j: Json): (r: Option<Change>)
    ensures r.Some? <==> ChangeSchema(j)
    ensures r.Some? ==> j.JObj?
    ensures r.Some? ==> r.value.path != "" && r.value.startLine >= 1 && r.value.occurrence >= 1
    ensures r.Some? ==> r.value.search.Some? || r.value.replace.Some?
    ensures r.Some? && "use_regex" !in j.fields ==> !r.value.useRegex
    ensures r.Some? && "ignore_leading_whitespace" !in j.fields ==> r.value.ignoreWhitespace
    ensures r.Some? && "preserve_indentation" !in j.fields ==> r.value.preserveIndentation
    ensures r.Some? && "match_occurrence" !in j.fields ==> r.value.occurrence == 1
    ensures r.Some? ==>
      var f := j.fields;
      && f["path"] == JStr(r.value.path)
      && f["start_line"] == JNum(r.value.startLine)
      && (r.value.search.Some? <==> "search_pattern" in f) && (r.value.search.Some? ==> f["search_pattern"] == JStr(r.value.search.value))
      && (r.value.replace.Some? <==> "replace_content" in f) && (r.value.replace.Some? ==> f["replace_content"] == JStr(r.value.replace.value))
      && ("use_regex" in f ==> f["use_regex"] == JBool(r.value.useRegex))
      && ("ignore_leading_whitespace" in f ==> f["ignore_leading_whitespace"] == JBool(r.value.ignoreWhitespace))
      && ("preserve_indentation" in f ==> f["preserve_indentation"] == JBool(r.value.preserveIndentation))
      && ("match_occurrence" in f ==> f["match_occurrence"] == JNum(r.value.occurrence))
  {
    if !j.JObj? then None
    else
      var f := j.fields;
      var useRegex := BoolField(f, "use_regex", false);
      var ignoreWhitespace := BoolField(f, "ignore_leading_whitespace", true);
      var preserve := BoolField(f, "preserve_indentation", true);
      if !("path" in f && f["path"].JStr? && f["path"].s != "") then None
      else if !OptionalString(f, "search_pattern") || !OptionalString(f, "replace_content") then None
      else if !("start_line" in f && PositiveInt(f["start_line"])) then None
      else if useRegex.None? || ignoreWhitespace.None? || preserve.None? then None
      else if "match_occurrence" in f && !PositiveInt(f["match_occurrence"]) then None
      else if !("search_pattern" in f || "replace_content" in f) then None
      else
        var occurrence := if "match_occurrence" in f then f["match_occurrence"].n else 1;
        Some(Change(f["path"].s, StringOf(f, "search_pattern"), f["start_line"].n, StringOf(f, "replace_content"),
                    useRegex.value, ignoreWhitespace.value, preserve.value, occurrence))
  }

  /** Every element parses as a change. */
  function ParseChanges(items: seq<Json>): (r: Option<seq<Change>>)
    ensures r.Some? <==> forall i :: 0 <= i < |items| ==> ParseChange(items[i]).Some?
    ensures r.Some? ==> |r.value| == |items| && forall i :: 0 <= i < |items| ==> Some(r.value[i]) == ParseChange(items[i])
  {
    if items == [] then Some([])
    else
      var first := ParseChange(items[0]);
      var rest := ParseChanges(items[1..]);
      if first.None? then None
      else if rest.None? then
        assert exists i :: 1 <= i < |items| && ParseChange(items[i]).None? by {
          var k :| 0 <= k < |items| - 1 && ParseChange(items[1..][k]).None?;
          assert items[1..][k] == items[k + 1];
        }
        None
      else
        assert forall i :: 1 <= i < |items| ==> items[i] == items[1..][i - 1];
        Some([first.value] + rest.value)
  }

  /** `EditFileArgsSchema`: a non-empty array of changes, and the two flags. */
  function ParseArgs(args: Json): (r: Option<Args>)
    ensures r.Some? <==>
      && args.JObj? && "changes" in args.fields && args.fields["changes"].JArr? && |args.fields["changes"].items| >= 1
      && (forall i :: 0 <= i < |args.fields["changes"].items| ==> ChangeSchema(args.fields["changes"].items[i]))
      && OptionalBool(args.fields, "dry_run") && OptionalBool(args.fields, "output_diff")
    ensures r.Some? ==> r.value.changes == ParseChanges(args.fields["changes"].items).value
    ensures r.Some? ==>
      && ("dry_run" in args.fields ==> args.fields["dry_run"] == JBool(r.value.dryRun))
      && ("output_diff" in args.fields ==> args.fields["output_diff"] == JBool(r.value.outputDiff))
      && ("output_diff" !in args.fields ==> r.value.outputDiff)
    ensures r.Some? ==> |r.value.changes| >= 1
    ensures r.Some? ==> forall i :: 0 <= i < |r.value.changes| ==> r.value.changes[i].startLine >= 1
    ensures r.Some? ==> args.JObj? && ("dry_run" !in args.fields ==> !r.value.dryRun)
  {
    if !args.JObj? then None
    else
      var f := args.fields;
      var dryRun := BoolField(f, "dry_run", false);
      var outputDiff := BoolField(f, "output_diff", true);
      if !("changes" in f && f["changes"].JArr? && |f["changes"].items| >= 1) then None
      else if dryRun.None? || outputDiff.None? then None
      else
        var changes := ParseChanges(f["changes"].items);
        if changes.None? then None else Some(Args(changes.value, dryRun.value, outputDiff.value))
  }

  // ---------------------------------------------------------------------
  // Grouping by path
  // ---------------------------------------------------------------------

  /**
   * The property names an object literal inherits from `Object.prototype`:
   * `acc[path]` is already truthy for them, so `acc[path].push` is not a
   * function and the `reduce` throws.
   */
  const Inherited: set<string> := {
    "__proto__", "constructor", "hasOwnProperty", "isPrototypeOf", "propertyIsEnumerable", "toLocaleString",
    "toString", "valueOf", "__defineGetter__", "__defineSetter__", "__lookupGetter__", "__lookupSetter__"
  }

  function Paths(changes: seq<Change>): (r: seq<string>)
    ensures |r| == |changes| && forall i :: 0 <= i < |changes| ==> r[i] == changes[i].path
  {
    seq(|changes|, i requires 0 <= i < |changes| => changes[i].path)
  }

  /** `changesByFile[p]`: the changes for path `p`, in input order. */
  function Group(changes: seq<Change>, p: string): seq<Change>
    decreases |changes|
  {
    if changes == [] then []
    else Group(changes[..|changes| - 1], p) + (if changes[|changes| - 1].path == p then [changes[|changes| - 1]] else [])
  }

  /** `indexOf` is fixed by its two defining facts. */
  lemma IndexOfUnique(xs: seq<string>, x: string, r: int)
    requires 0 <= r < |xs| && xs[r] == x && x !in xs[..r]
    ensures IndexOf(xs, x) == r
  {
  }

  /**
   * The keys are the distinct paths, each once, ordered by where they
   * first appear.
   */
  lemma {:induction false} DedupFacts(xs: seq<string>)
    ensures Distinct(Dedup(xs))
    ensures forall x :: x in Dedup(xs) <==> x in xs
    ensures forall a, b :: 0 <= a < b < |Dedup(xs)| ==> IndexOf(xs, Dedup(xs)[a]) < IndexOf(xs, Dedup(xs)[b])
    decreases |xs|
  {
    if xs != [] {
      var init, last := xs[..|xs| - 1], xs[|xs| - 1];
      DedupFacts(init);
      assert xs == init + [last];
      var prev := Dedup(init);
      forall x | x in init
        ensures IndexOf(xs, x) == IndexOf(init, x)
      {
        var r := IndexOf(init, x);
        assert xs[..r] == init[..r];
        IndexOfUnique(xs, x, r);
      }
      if last !in prev {
        assert last !in xs[..|xs| - 1];
        IndexOfUnique(xs, last, |xs| - 1);
        var d := prev + [last];
        forall a, b | 0 <= a < b < |d|
          ensures IndexOf(xs, d[a]) < IndexOf(xs, d[b])
        {
          assert d[a] == prev[a] && d[a] in init;
          if b < |prev| {
            assert d[b] == prev[b];
          }
        }
      }
    }
  }

  /** Each group holds exactly the changes for its path, and is non-empty for every key. */
  lemma {:induction false} GroupFacts(changes: seq<Change>, p: string)
    ensures forall c :: c in Group(changes, p) ==> c in changes && c.path == p
    ensures |Group(changes, p)| > 0 <==> p in Paths(changes)
    decreases |changes|
  {
    if changes != [] {
      var init := changes[..|changes| - 1];
      GroupFacts(init, p);
      assert Paths(changes) == Paths(init) + [changes[|changes| - 1].path];
    }
  }

  /**
   * The `reduce` that builds `changesByFile`: keys in insertion order, and
   * the changes for each key pushed in input order.
   */
  method GroupChanges(changes: seq<Change>) returns (keys: seq<string>, groups: map<string, seq<Change>>, crashed: bool)
    ensures crashed <==> exists i :: 0 <= i < |changes| && changes[i].path in Inherited
    ensures !crashed ==> keys == Dedup(Paths(changes))
    ensures !crashed ==> forall p :: p in groups <==> p in keys
    ensures !crashed ==> forall p :: p in groups ==> groups[p] == Group(changes, p)
  {
    keys, groups, crashed := [], map[], false;
    for k := 0 to |changes|
      invariant forall i :: 0 <= i < k ==> changes[i].path !in Inherited
      invariant keys == Dedup(Paths(changes[..k]))
      invariant forall p :: p in groups <==> p in keys
      invariant forall p :: p in groups ==> groups[p] == Group(changes[..k], p)
    {
      var change := changes[k];
      if change.path in Inherited {
        return keys, groups, true;
      }
      assert changes[..k + 1][..k] == changes[..k];
      assert Paths(changes[..k + 1]) == Paths(changes[..k]) + [change.path];
      assert Paths(changes[..k + 1])[..k] == Paths(changes[..k]);
      ghost var before := groups;
      if change.path !in groups {
        groups := groups[change.path := []];
        keys := keys + [change.path];
      }
      groups := groups[change.path := groups[change.path] + [change]];
      forall q | q in groups
        ensures groups[q] == Group(changes[..k + 1], q)
      {
        assert Group(changes[..k + 1], q) == Group(changes[..k], q) + (if change.path == q then [change] else []);
        if q != change.path {
          assert groups[q] == before[q];
        } else if q !in before {
          DedupFacts(Paths(changes[..k]));
          GroupFacts(changes[..k], q);
        }
      }
    }
    assert changes[..|changes|] == changes;
  }

  // ---------------------------------------------------------------------
  // The order of `for ... in`
  // ---------------------------------------------------------------------

  /**
   * An array index: the canonical decimal form of an integer below
   * 2^32 - 1. Own keys of this form are listed first, in numeric order
   * (section 10.1.11.1 of ECMAScript 2020).
   */
  predicate IsArrayIndex(s: string)
  {
    && |s| >= 1
    && AllDigits(s)
    && (|s| == 1 || s[0] != '0')
    && DigitsValue(s) < 0xFFFF_FFFF
  }

  function IndexValue(s: string): int
  {
    if IsArrayIndex(s) then DigitsValue(s) else 0
  }

  function IndexKeys(keys: seq<string>): (r: seq<string>)
    ensures forall k :: k in r ==> IsArrayIndex(k)
    decreases |keys|
  {
    if keys == [] then []
    else IndexKeys(keys[..|keys| - 1]) + (if IsArrayIndex(keys[|keys| - 1]) then [keys[|keys| - 1]] else [])
  }

  function NamedKeys(keys: seq<string>): (r: seq<string>)
    ensures forall k :: k in r ==> !IsArrayIndex(k)
    decreases |keys|
  {
    if keys == [] then []
    else NamedKeys(keys[..|keys| - 1]) + (if IsArrayIndex(keys[|keys| - 1]) then [] else [keys[|keys| - 1]])
  }

  /** The order `for (const p in changesByFile)` visits the keys inserted as `keys`. */
  function ForInOrder(keys: seq<string>): seq<string>
  {
    SortBy(IndexKeys(keys), IndexValue) + NamedKeys(keys)
  }

  lemma {:induction false} SplitKeys(keys: seq<string>)
    ensures multiset(IndexKeys(keys)) + multiset(NamedKeys(keys)) == multiset(keys)
    decreases |keys|
  {
    if keys != [] {
      var init, last := keys[..|keys| - 1], keys[|keys| - 1];
      SplitKeys(init);
      assert keys == init + [last];
      assert multiset(keys) == multiset(init) + multiset{last};
    }
  }

  lemma {:induction false} NoIndexKeys(keys: seq<string>)
    requires forall k :: 0 <= k < |keys| ==> !IsArrayIndex(keys[k])
    ensures IndexKeys(keys) == [] && NamedKeys(keys) == keys
    decreases |keys|
  {
    if keys != [] {
      var init := keys[..|keys| - 1];
      NoIndexKeys(init);
      assert keys == init + [keys[|keys| - 1]];
    }
  }

  /**
   * The loop visits every key exactly once; array-index keys come first in
   * numeric order; without array-index keys it is insertion order.
   */
  lemma ForInOrderFacts(keys: seq<string>)
    ensures multiset(ForInOrder(keys)) == multiset(keys)
    ensures forall i, j :: 0 <= i < j < |ForInOrder(keys)| && IsArrayIndex(ForInOrder(keys)[j]) ==>
      IsArrayIndex(ForInOrder(keys)[i]) && IndexValue(ForInOrder(keys)[i]) <= IndexValue(ForInOrder(keys)[j])
    ensures (forall k :: 0 <= k < |keys| ==> !IsArrayIndex(keys[k])) ==> ForInOrder(keys) == keys
  {
    SplitKeys(keys);
    SortByFacts(IndexKeys(keys), IndexValue);
    var sorted := SortBy(IndexKeys(keys), IndexValue);
    var order := ForInOrder(keys);
    forall i, j | 0 <= i < j < |order| && IsArrayIndex(order[j])
      ensures IsArrayIndex(order[i]) && IndexValue(order[i]) <= IndexValue(order[j])
    {
      assert order[j] == sorted[j];
      assert order[i] == sorted[i];
      assert sorted[i] in multiset(IndexKeys(keys));
    }
    if forall k :: 0 <= k < |keys| ==> !IsArrayIndex(keys[k]) {
      NoIndexKeys(keys);
    }
  }

  // ---------------------------------------------------------------------
  // One file
  // ---------------------------------------------------------------------

  /** The state of the change loop: `lines`, `currentContent`, `changesAppliedToFile`. */
  datatype Pass = Pass(lines: seq<string>, content: string, applied: bool)

  /** The sort key of `(a, b) => b.start_line - a.start_line`. */
  function Descending(c: Change): int
  {
    -c.startLine
  }

  /**
   * The changes applied in turn. After a successful change the content is
   * the lines joined by `\n`, and the lines are that content split again.
   * `detect` is the indentation `detect-indent` finds in a content.
   */
  function Run(original: string, changes: seq<Change>, detect: string -> string): Pass
    decreases |changes|
  {
    if changes == [] then Pass(Split(original, '\n'), original, false)
    else
      var prev := Run(original, changes[..|changes| - 1], detect);
      var a := Edit(prev.lines, changes[|changes| - 1], detect(prev.content));
      if a.succeeded then
        var content := Join(a.lines, "\n");
        Pass(Split(content, '\n'), content, true)
      else prev
  }

  /** The loop over one file's sorted changes. */
  method ApplyChanges(original: string, changes: seq<Change>, detect: string -> string)
    returns (lines: seq<string>, currentContent: string, changesApplied: bool)
    ensures Pass(lines, currentContent, changesApplied) == Run(original, changes, detect)
  {
    currentContent := original;
    lines := Split(currentContent, '\n');
    changesApplied := false;
    for k := 0 to |changes|
      invariant Pass(lines, currentContent, changesApplied) == Run(original, changes[..k], detect)
    {
      assert changes[..k + 1][..k] == changes[..k];
      var newLines, changeSucceeded := ApplyChange(lines, changes[k], detect(currentContent));
      if changeSucceeded {
        changesApplied := true;
        currentContent := Join(newLines, "\n");
        lines := Split(currentContent, '\n');
      }
    }
    assert changes[..|changes|] == changes;
  }

  /** `Unexpected error processing <p>: <error.message || error>`. */
  function Unexpected(path: string, message: string): string
  {
    "Unexpected error processing " + path + ": " + (if message != "" then message else "Error")
  }

  /** The message the outer `catch` gives a filesystem error. */
  function Caught(path: string, e: FsError): string
    requires !e.Nullish?
  {
    match e
    case Errno(code, message) =>
      if code != "" then "Filesystem error (" + code + ") processing " + path + "." else Unexpected(path, message)
    case NoCode(message) => Unexpected(path, message)
  }

  /**
   * One iteration of the loop over files: `None` when the `catch` block
   * itself throws (a `null` rejection of the write), which rejects the
   * whole handler.
   */
  function FileOutcome(root: seq<string>, path: string, changes: seq<Change>, read: Outcome<string>,
                       detect: string -> string, write: Option<FsError>, dryRun: bool, typeError: string): (r: Option<FileDone>)
    requires ValidRoot(root)
    ensures r.Some? ==> r.value.result.path == path
    ensures r.None? ==> write == Some(Nullish) && !dryRun
    ensures ResolvePath(root, JStr(path)).Err? ==>
      r == Some(FileDone(FileResult(path, Failed, ErrorMessage(ResolvePath(root, JStr(path)).error)), None))
    ensures ResolvePath(root, JStr(path)).Ok? && read.Fails? && read.err.Errno? && read.err.code == "ENOENT" ==>
      r == Some(FileDone(FileResult(path, Failed, ErrorMessage(McpError(InvalidRequest, "File not found: " + path))), None))
  {
    match ResolvePath(root, JStr(path))
    case Err(e) => Some(FileDone(FileResult(path, Failed, ErrorMessage(e)), None))
    case Ok(_) =>
      match read
      case Fails(e) =>
        if e.Nullish? then Some(FileDone(FileResult(path, Failed, Unexpected(path, typeError)), None))
        else if e.Errno? && e.code == "ENOENT" then Some(FileDone(FileResult(path, Failed, ErrorMessage(McpError(InvalidRequest, "File not found: " + path))), None))
        else Some(FileDone(FileResult(path, Failed, Caught(path, e)), None))
      case Done(original) =>
        var run := Run(original, SortBy(changes, Descending), detect);
        if !run.applied then Some(FileDone(FileResult(path, Skipped, "No applicable changes found or made for " + path + "."), None))
        else if dryRun then Some(FileDone(FileResult(path, Success, "File " + path + " changes calculated (dry run)."), None))
        else
          match write
          case None => Some(FileDone(FileResult(path, Success, "File " + path + " modified successfully."), Some(run.content)))
          case Some(e) => if e.Nullish? then None else Some(FileDone(FileResult(path, Failed, Caught(path, e)), None))
  }

  /** The body of the loop over files, from `resolvePath` to the `finally` block. */
  method ProcessFile(root: seq<string>, path: string, changes: seq<Change>, read: Outcome<string>,
                     detect: string -> string, write: Option<FsError>, dryRun: bool, typeError: string)
    returns (r: Option<FileDone>)
    requires ValidRoot(root)
    ensures r == FileOutcome(root, path, changes, read, detect, write, dryRun, typeError)
  {
    var absolutePath := ResolvePath(root, JStr(path));
    if absolutePath.Err? {
      return Some(FileDone(FileResult(path, Failed, ErrorMessage(absolutePath.error)), None));
    }
    if read.Fails? {
      if read.err == Nullish {
        return Some(FileDone(FileResult(path, Failed, Unexpected(path, typeError)), None));
      } else if read.err.Errno? && read.err.code == "ENOENT" {
        return Some(FileDone(FileResult(path, Failed, ErrorMessage(McpError(InvalidRequest, "File not found: " + path))), None));
      }
      return Some(FileDone(FileResult(path, Failed, Caught(path, read.err)), None));
    }
    var fileChanges := SortedCopy(changes, Descending);
    var lines, currentContent, changesApplied := ApplyChanges(read.value, fileChanges, detect);
    if !changesApplied {
      return Some(FileDone(FileResult(path, Skipped, "No applicable changes found or made for " + path + "."), None));
    }
    if dryRun {
      return Some(FileDone(FileResult(path, Success, "File " + path + " changes calculated (dry run)."), None));
    }
    if write.Some? {
      if write.value == Nullish {
        return None;
      }
      return Some(FileDone(FileResult(path, Failed, Caught(path, write.value)), None));
    }
    return Some(FileDone(FileResult(path, Success, "File " + path + " modified successfully."), Some(currentContent)));
  }

  // ---------------------------------------------------------------------
  // The handler
  // ---------------------------------------------------------------------

  /** The files `paths`, in turn; `read`, `write` and `detect` are the I/O outcomes per file. */
  function Processed(root: seq<string>, paths: seq<string>, changes: seq<Change>, dryRun: bool,
                     read: string -> Outcome<string>, detect: string -> string, write: string -> Option<FsError>,
                     typeError: string): (r: EditReply)
    requires ValidRoot(root)
    ensures r.Replied? || r.Crashed?
    decreases |paths|
  {
    if paths == [] then Replied([], [])
    else
      var prev := Processed(root, paths[..|paths| - 1], changes, dryRun, read, detect, write, typeError);
      var p := paths[|paths| - 1];
      if prev.Crashed? then Crashed
      else
        match FileOutcome(root, p, Group(changes, p), read(p), detect, write(p), dryRun, typeError)
        case None => Crashed
        case Some(d) => Replied(prev.results + [d.result], prev.writes + (if d.written.Some? then [Write(p, d.written.value)] else []))
  }

  /** The whole tool. */
  function EditFileSpec(root: seq<string>, args: Json, zodDetails: string, read: string -> Outcome<string>,
                        detect: string -> string, write: string -> Option<FsError>, typeError: string): EditReply
    requires ValidRoot(root)
  {
    match ParseArgs(args)
    case None => Raised(McpError(InvalidParams, "Invalid arguments for editFile: " + zodDetails))
    case Some(a) =>
      if exists i :: 0 <= i < |a.changes| && a.changes[i].path in Inherited then Crashed
      else Processed(root, ForInOrder(Dedup(Paths(a.changes))), a.changes, a.dryRun, read, detect, write, typeError)
  }

  /**
   * `handleEditFile`. `zodDetails` stands for the text the schema
   * validator gives for a refused argument object.
   */
  method HandleEditFile(root: seq<string>, args: Json, zodDetails: string, read: string -> Outcome<string>,
                        detect: string -> string, write: string -> Option<FsError>, typeError: string)
    returns (r: EditReply)
    requires ValidRoot(root)
    ensures r == EditFileSpec(root, args, zodDetails, read, detect, write, typeError)
  {
    var parsed := ParseArgs(args);
    if parsed.None? {
      return Raised(McpError(InvalidParams, "Invalid arguments for editFile: " + zodDetails));
    }
    var changes, dryRun := parsed.value.changes, parsed.value.dryRun;
    var keys, changesByFile, crashed := GroupChanges(changes);
    if crashed {
      return Crashed;
    }
    var order := ForInOrder(keys);
    ForInOrderFacts(keys);
    forall p | p in order
      ensures p in changesByFile && changesByFile[p] == Group(changes, p)
    {
      assert p in multiset(keys);
    }
    r := ProcessFiles(root, order, changesByFile, changes, dryRun, read, detect, write, typeError);
  }

  /** The loop over the files, in `for ... in` order. */
  method ProcessFiles(root: seq<string>, order: seq<string>, changesByFile: map<string, seq<Change>>, changes: seq<Change>,
                      dryRun: bool, read: string -> Outcome<string>, detect: string -> string,
                      write: string -> Option<FsError>, typeError: string)
    returns (r: EditReply)
    requires ValidRoot(root)
    requires forall p :: p in order ==> p in changesByFile && changesByFile[p] == Group(changes, p)
    ensures r == Processed(root, order, changes, dryRun, read, detect, write, typeError)
  {
    var results: seq<FileResult> := [];
    var writes: seq<Write> := [];
    for k := 0 to |order|
      invariant Processed(root, order[..k], changes, dryRun, read, detect, write, typeError) == Replied(results, writes)
    {
      var relativePath := order[k];
      var fileResult := ProcessFile(root, relativePath, changesByFile[relativePath], read(relativePath), detect,
                                    write(relativePath), dryRun, typeError);
      ProcessedNext(root, order, k, changes, dryRun, read, detect, write, typeError);
      if fileResult.None? {
        CrashSticks(root, order, k + 1, changes, dryRun, read, detect, write, typeError);
        return Crashed;
      }
      results := results + [fileResult.value.result];
      if fileResult.value.written.Some? {
        writes := writes + [Write(relativePath, fileResult.value.written.value)];
      }
    }
    assert order[..|order|] == order;
    return Replied(results, writes);
  }

  /** One more file: the reply so far extended by what that file yields. */
  lemma ProcessedNext(root: seq<string>, paths: seq<string>, k: nat, changes: seq<Change>, dryRun: bool,
                      read: string -> Outcome<string>, detect: string -> string,
                      write: string -> Option<FsError>, typeError: string)
    requires ValidRoot(root) && k < |paths|
    ensures var prev := Processed(root, paths[..k], changes, dryRun, read, detect, write, typeError);
            var p := paths[k];
            var o := FileOutcome(root, p, Group(changes, p), read(p), detect, write(p), dryRun, typeError);
            Processed(root, paths[..k + 1], changes, dryRun, read, detect, write, typeError) ==
              if prev.Crashed? || o.None? then Crashed
              else Replied(prev.results + [o.value.result],
                           prev.writes + (if o.value.written.Some? then [Write(p, o.value.written.value)] else []))
  {
    assert paths[..k + 1][..k] == paths[..k];
  }

  /** Once a file has made the handler reject, later files change nothing. */
  lemma {:induction false} CrashSticks(root: seq<string>, paths: seq<string>, k: nat, changes: seq<Change>, dryRun: bool,
                                       read: string -> Outcome<string>, detect: string -> string,
                                       write: string -> Option<FsError>, typeError: string)
    requires ValidRoot(root) && k <= |paths|
    requires Processed(root, paths[..k], changes, dryRun, read, detect, write, typeError).Crashed?
    ensures Processed(root, paths, changes, dryRun, read, detect, write, typeError).Crashed?
    decreases |paths| - k
  {
    if k < |paths| {
      assert paths[..k + 1][..k] == paths[..k];
      CrashSticks(root, paths, k + 1, changes, dryRun, read, detect, write, typeError);
    } else {
      assert paths[..k] == paths;
    }
  }

  // ---------------------------------------------------------------------
  // Properties
  // ---------------------------------------------------------------------

  /**
   * Within a file the changes run in descending start line, and changes
   * with the same start line keep their input order.
   */
  lemma ChangeOrder(changes: seq<Change>)
    ensures multiset(SortBy(changes, Descending)) == multiset(changes)
    ensures forall i, j :: 0 <= i < j < |SortBy(changes, Descending)| ==>
      SortBy(changes, Descending)[i].startLine >= SortBy(changes, Descending)[j].startLine
    ensures forall k :: WithKey(SortBy(changes, Descending), Descending, k) == WithKey(changes, Descending, k)
  {
    forall k
      ensures WithKey(SortBy(changes, Descending), Descending, k) == WithKey(changes, Descending, k)
    {
      SortByOrder(changes, Descending, k);
    }
    SortByFacts(changes, Descending);
    StartLinesDescend(SortBy(changes, Descending));
  }

  /** Ordered by `Descending`, the start lines never increase. */
  lemma StartLinesDescend(sorted: seq<Change>)
    requires SortedBy(sorted, Descending)
    ensures forall i, j :: 0 <= i < j < |sorted| ==> sorted[i].startLine >= sorted[j].startLine
  {
    forall i, j | 0 <= i < j < |sorted|
      ensures sorted[i].startLine >= sorted[j].startLine
    {
      assert Descending(sorted[i]) <= Descending(sorted[j]);
    }
  }

  /** The content always is the lines joined by `\n`. */
  lemma {:induction false} ContentIsJoinedLines(original: string, changes: seq<Change>, detect: string -> string)
    ensures Join(Run(original, changes, detect).lines, "\n") == Run(original, changes, detect).content
    decreases |changes|
  {
    if changes == [] {
      JoinSplit(original, '\n');
    } else {
      var prev := Run(original, changes[..|changes| - 1], detect);
      ContentIsJoinedLines(original, changes[..|changes| - 1], detect);
      var a := Edit(prev.lines, changes[|changes| - 1], detect(prev.content));
      if a.succeeded {
        JoinSplit(Join(a.lines, "\n"), '\n');
      }
    }
  }

  /** The change at position `k` succeeds on the state the changes before it leave. */
  predicate StepSucceeds(original: string, changes: seq<Change>, detect: string -> string, k: nat)
    requires k < |changes|
  {
    var prev := Run(original, changes[..k], detect);
    Edit(prev.lines, changes[k], detect(prev.content)).succeeded
  }

  /**
   * A file counts as changed exactly when some change succeeded; when none
   * did, its content and lines are those read.
   */
  lemma {:induction false} AppliedIffSomeStep(original: string, changes: seq<Change>, detect: string -> string)
    ensures Run(original, changes, detect).applied <==> exists k :: 0 <= k < |changes| && StepSucceeds(original, changes, detect, k)
    ensures !Run(original, changes, detect).applied ==>
      Run(original, changes, detect).content == original && Run(original, changes, detect).lines == Split(original, '\n')
    decreases |changes|
  {
    if changes != [] {
      var n := |changes| - 1;
      var init := changes[..n];
      AppliedIffSomeStep(original, init, detect);
      forall k | 0 <= k < n
        ensures StepSucceeds(original, changes, detect, k) == StepSucceeds(original, init, detect, k)
      {
        assert changes[..k] == init[..k];
      }
      var prev := Run(original, init, detect);
      var last := StepSucceeds(original, changes, detect, n);
      assert Run(original, changes, detect).applied == (last || prev.applied);
      if last {
        assert StepSucceeds(original, changes, detect, n);
      } else if prev.applied {
        var k :| 0 <= k < n && StepSucceeds(original, init, detect, k);
        assert StepSucceeds(original, changes, detect, k);
      } else {
        forall k | 0 <= k < |changes|
          ensures !StepSucceeds(original, changes, detect, k)
        {
          if k < n {
            assert !StepSucceeds(original, init, detect, k);
          }
        }
      }
    }
  }

  /**
   * A readable file inside the root is `success` exactly when some change
   * succeeded and the write (if any) went through, `skipped` exactly when
   * none did; it is written only when successful and not a dry run, and
   * then with the final content.
   */
  lemma StatusMeaning(root: seq<string>, path: string, changes: seq<Change>, original: string,
                      detect: string -> string, write: Option<FsError>, dryRun: bool, typeError: string)
    requires ValidRoot(root) && ResolvePath(root, JStr(path)).Ok?
    ensures var run := Run(original, SortBy(changes, Descending), detect);
      var o := FileOutcome(root, path, changes, Done(original), detect, write, dryRun, typeError);
      && (o.Some? && o.value.result.status == Success <==> run.applied && (dryRun || write.None?))
      && (o.Some? && o.value.result.status == Skipped <==> !run.applied)
      && (o.Some? && o.value.written.Some? <==> run.applied && !dryRun && write.None?)
      && (o.Some? && o.value.written.Some? ==> o.value.written.value == Join(run.lines, "\n"))
      && (o.None? <==> run.applied && !dryRun && write == Some(Nullish))
  {
    ContentIsJoinedLines(original, SortBy(changes, Descending), detect);
  }

  /** Every file of the reply is one of the grouped paths, in loop order. */
  lemma {:induction false} ProcessedPaths(root: seq<string>, paths: seq<string>, changes: seq<Change>, dryRun: bool,
                                          read: string -> Outcome<string>, detect: string -> string,
                                          write: string -> Option<FsError>, typeError: string)
    requires ValidRoot(root)
    ensures Processed(root, paths, changes, dryRun, read, detect, write, typeError).Replied? ==>
      ResultPaths(Processed(root, paths, changes, dryRun, read, detect, write, typeError).results) == paths
    decreases |paths|
  {
    if paths != [] {
      var init, p := paths[..|paths| - 1], paths[|paths| - 1];
      assert paths == init + [p];
      ProcessedPaths(root, init, changes, dryRun, read, detect, write, typeError);
      ProcessedLast(root, paths, changes, dryRun, read, detect, write, typeError);
      var r := Processed(root, paths, changes, dryRun, read, detect, write, typeError);
      if r.Replied? {
        var prev := Processed(root, init, changes, dryRun, read, detect, write, typeError).results;
        ResultPathsExtend(prev, r.results);
      }
    }
  }

  /** One more record adds its path to the paths of the records. */
  lemma ResultPathsExtend(a: seq<FileResult>, b: seq<FileResult>)
    requires |b| == |a| + 1 && b[..|a|] == a
    ensures ResultPaths(b) == ResultPaths(a) + [b[|a|].path]
  {
    assert forall i :: 0 <= i < |a| ==> b[i] == a[i];
  }

  /** A reply for `paths` extends the reply for all but the last path by one record naming that path. */
  lemma ProcessedLast(root: seq<string>, paths: seq<string>, changes: seq<Change>, dryRun: bool,
                      read: string -> Outcome<string>, detect: string -> string,
                      write: string -> Option<FsError>, typeError: string)
    requires ValidRoot(root)
    requires paths != []
    ensures var r := Processed(root, paths, changes, dryRun, read, detect, write, typeError);
            var prev := Processed(root, paths[..|paths| - 1], changes, dryRun, read, detect, write, typeError);
            r.Replied? ==>
              && prev.Replied?
              && |r.results| == |prev.results| + 1
              && r.results[..|prev.results|] == prev.results
              && r.results[|prev.results|].path == paths[|paths| - 1]
  {
  }

  /**
   * Exactly one record per distinct path: the records name the paths of
   * the changes, each once.
   */
  lemma OneResultPerPath(root: seq<string>, args: Json, zodDetails: string, read: string -> Outcome<string>,
                         detect: string -> string, write: string -> Option<FsError>, typeError: string)
    requires ValidRoot(root)
    ensures var r := EditFileSpec(root, args, zodDetails, read, detect, write, typeError);
      r.Replied? ==>
        && ParseArgs(args).Some?
        && |r.results| == |Dedup(Paths(ParseArgs(args).value.changes))|
        && multiset(ResultPaths(r.results)) == multiset(Dedup(Paths(ParseArgs(args).value.changes)))
        && (forall p :: p in ResultPaths(r.results) <==> p in Paths(ParseArgs(args).value.changes))
  {
    var r := EditFileSpec(root, args, zodDetails, read, detect, write, typeError);
    if r.Replied? {
      var a := ParseArgs(args).value;
      var keys := Dedup(Paths(a.changes));
      var order := ForInOrder(keys);
      ForInOrderFacts(keys);
      DedupFacts(Paths(a.changes));
      ProcessedPaths(root, order, a.changes, a.dryRun, read, detect, write, typeError);
      assert ResultPaths(r.results) == order;
      forall p
        ensures p in order <==> p in keys
      {
        assert p in multiset(order) <==> p in multiset(keys);
      }
    }
  }

  function ResultPaths(results: seq<FileResult>): (r: seq<string>)
    ensures |r| == |results| && forall i :: 0 <= i < |results| ==> r[i] == results[i].path
  {
    seq(|results|, i requires 0 <= i < |results| => results[i].path)
  }
}
