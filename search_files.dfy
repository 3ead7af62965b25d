/**
 * The `search_files` tool: find the matches of a regular expression in
 * every line of the files a glob selects, with two lines of context on
 * each side. The expression itself is an uninterpreted matcher: `exec`
 * gives the first match at or after a position, as `RegExp.prototype.exec`
 * does for a global or sticky expression whose `lastIndex` is that position.
 */
module SearchFiles {
  import opened Common
  import opened PathUtils

  /** `matchResult.index` and `matchResult[0]`. */
  datatype MatchAt = MatchAt(index: nat, text: string)

  datatype SearchResult = SearchResult(file: string, line: nat, text: string, context: seq<string>)

  /** What the glob gives: the matching files, relative to the root, or the message it failed with. */
  datatype Listing = Listed(files: seq<string>) | GlobFailed(message: string)

  const MissingRegex := McpError(InvalidParams, "Missing or invalid required parameter: regex")
  const ContextLines := 2

  // ---------------------------------------------------------------------
  // Arguments
  // ---------------------------------------------------------------------

  /** `args?.regex` when it is a string that is not blank. */
  function RegexArg(args: Json): (r: Option<string>)
    ensures r.Some? <==> Field(args, "regex").Some? && Field(args, "regex").value.JStr? && !Blank(Field(args, "regex").value.s)
    ensures r.Some? ==> Field(args, "regex") == Some(JStr(r.value))
  {
    match Field(args, "regex")
    case Some(JStr(s)) => if Blank(s) then None else Some(s)
    case _ => None
  }

  /** `args?.key ?? fallback`. */
  function OrDefault(args: Json, key: string, fallback: string): (r: Json)
    ensures Field(args, key).None? || Field(args, key) == Some(JNull) ==> r == JStr(fallback)
    ensures Field(args, key).Some? && Field(args, key) != Some(JNull) ==> r == Field(args, key).value
  {
    match Field(args, key)
    case None => JStr(fallback)
    case Some(v) => if v == JNull then JStr(fallback) else v
  }

  predicate FlagChar(c: char)
  {
    c in "gimyus"
  }

  predicate AllFlags(s: string)
  {
    forall k :: 0 <= k < |s| ==> FlagChar(s[k])
  }

  /** The position of the last `/` in `s`, if any. */
  function LastSlash(s: string): (r: Option<nat>)
    ensures r.Some? ==> r.value < |s| && s[r.value] == '/' && '/' !in s[r.value + 1..]
    ensures r.None? ==> '/' !in s
  {
    if s == [] then None
    else if s[|s| - 1] == '/' then Some(|s| - 1)
    else
      var r := LastSlash(s[..|s| - 1]);
      assert s == s[..|s| - 1] + [s[|s| - 1]];
      if r.Some? then
        assert s[r.value + 1..] == s[..|s| - 1][r.value + 1..] + [s[|s| - 1]];
        r
      else r
  }

  /** `regexString.match(/\/([gimyus]+)$/)` matches at position `k`. */
  predicate FlagsAt(s: string, k: int)
  {
    0 <= k < |s| - 1 && s[k] == '/' && AllFlags(s[k + 1..])
  }

  /**
   * The pattern and the flags: a trailing `/` followed by flag letters is
   * split off, and the pattern is `slice(1, index)`, which drops the first
   * character whatever it is; otherwise the whole string is the pattern.
   */
  function SplitFlags(s: string): (r: (string, string))
    ensures r.1 != "" <==> exists k :: FlagsAt(s, k)
    ensures forall k :: FlagsAt(s, k) ==> r == (if k == 0 then "" else s[1..k], s[k + 1..])
    ensures r.1 == "" ==> r.0 == s
  {
    var slash := LastSlash(s);
    if slash.Some? && slash.value < |s| - 1 && AllFlags(s[slash.value + 1..]) then
      var k := slash.value;
      assert FlagsAt(s, k);
      forall j | FlagsAt(s, j)
        ensures j == k
      {
        OnlyLastSlash(s, k, j);
      }
      (if k == 0 then "" else s[1..k], s[k + 1..])
    else
      forall j | FlagsAt(s, j)
        ensures false
      {
        if slash.Some? {
          OnlyLastSlash(s, slash.value, j);
        }
      }
      (s, "")
  }

  /** Flag letters contain no `/`, so only the last `/` can start the match. */
  lemma OnlyLastSlash(s: string, k: nat, j: int)
    requires k < |s| && s[k] == '/' && '/' !in s[k + 1..] && FlagsAt(s, j)
    ensures j == k
  {
  }

  // ---------------------------------------------------------------------
  // The match loop
  // ---------------------------------------------------------------------

  /** The `while` loop of a global expression over one line; it leaves `lastIndex` at 0. */
  method GlobalLine(file: string, lines: seq<string>, i: nat, exec: (string, nat) -> Option<MatchAt>)
    returns (found: seq<SearchResult>)
    requires WellBehaved(exec) && i < |lines|
    ensures found == LineResults(file, lines, i, GlobalMatches(lines[i], 0, exec))
  {
    var line := lines[i];
    found := [];
    var lastIndex: nat := 0;
    while true
      invariant lastIndex <= |line| + 1
      invariant found + LineResults(file, lines, i, GlobalMatches(line, lastIndex, exec))
             == LineResults(file, lines, i, GlobalMatches(line, 0, exec))
      decreases |line| + 1 - lastIndex
    {
      var matchResult := exec(line, lastIndex);
      if matchResult.None? {
        assert GlobalMatches(line, lastIndex, exec) == [];
        return;
      }
      var m := matchResult.value;
      GlobalStep(file, lines, i, lastIndex, exec);
      var next := m.index + |m.text|;
      if m.index == next {
        next := next + 1;
      }
      assert next == Next(m);
      var here := LineResults(file, lines, i, [m]);
      ghost var later := LineResults(file, lines, i, GlobalMatches(line, next, exec));
      assert found + (here + later) == (found + here) + later;
      found := found + here;
      lastIndex := next;
    }
  }

  /** One round of the global loop: the first match's records, then those from `Next` of it. */
  lemma GlobalStep(file: string, lines: seq<string>, i: nat, from: nat, exec: (string, nat) -> Option<MatchAt>)
    requires WellBehaved(exec) && i < |lines| && from <= |lines[i]| + 1 && exec(lines[i], from).Some?
    ensures var m := exec(lines[i], from).value;
      && from < Next(m) <= |lines[i]| + 1
      && LineResults(file, lines, i, GlobalMatches(lines[i], from, exec))
         == LineResults(file, lines, i, [m]) + LineResults(file, lines, i, GlobalMatches(lines[i], Next(m), exec))
  {
    var m := exec(lines[i], from).value;
    LineResultsAppend(file, lines, i, [m], GlobalMatches(lines[i], Next(m), exec));
  }

  /**
   * What every `RegExp` guarantees of `exec` from a position: a match
   * starts there or later and ends within the line.
   */
  ghost predicate WellBehaved(exec: (string, nat) -> Option<MatchAt>)
  {
    forall line: string, from: nat {:trigger exec(line, from)} ::
      exec(line, from).Some? ==> from <= exec(line, from).value.index && exec(line, from).value.index + |exec(line, from).value.text| <= |line|
  }

  /** `lastIndex` after a global match: its end, one further for an empty match. */
  function Next(m: MatchAt): nat
  {
    if m.text == "" then m.index + 1 else m.index + |m.text|
  }

  /**
   * The matches the global loop finds in `line` from `lastIndex` `from`:
   * every match moves `lastIndex` forward, so the loop ends.
   */
  function GlobalMatches(line: string, from: nat, exec: (string, nat) -> Option<MatchAt>): seq<MatchAt>
    requires WellBehaved(exec) && from <= |line| + 1
    decreases |line| + 1 - from
  {
    match exec(line, from)
    case None => []
    case Some(m) => [m] + GlobalMatches(line, Next(m), exec)
  }

  /** Every match lies in `line`, at `from` or later. */
  predicate WithinFrom(line: string, from: nat, ms: seq<MatchAt>)
  {
    forall k :: 0 <= k < |ms| ==> from <= ms[k].index && ms[k].index + |ms[k].text| <= |line|
  }

  /** Each match starts after the previous one ends, and strictly later. */
  predicate Ascending(ms: seq<MatchAt>)
  {
    forall k :: 0 < k < |ms| ==> ms[k - 1].index + |ms[k - 1].text| <= ms[k].index && ms[k - 1].index < ms[k].index
  }

  /**
   * The global loop's matches lie in the line, from `from` on, and do not
   * overlap: each starts after the previous one ends.
   */
  lemma {:induction false} GlobalMatchesOrdered(line: string, from: nat, exec: (string, nat) -> Option<MatchAt>)
    requires WellBehaved(exec) && from <= |line| + 1
    ensures WithinFrom(line, from, GlobalMatches(line, from, exec))
    ensures Ascending(GlobalMatches(line, from, exec))
    decreases |line| + 1 - from
  {
    var r := exec(line, from);
    if r.Some? {
      var m := r.value;
      assert from <= m.index && m.index + |m.text| <= |line|;
      var rest := GlobalMatches(line, Next(m), exec);
      GlobalMatchesOrdered(line, Next(m), exec);
      var ms := [m] + rest;
      assert GlobalMatches(line, from, exec) == ms;
      forall k | 0 < k < |ms|
        ensures ms[k - 1].index + |ms[k - 1].text| <= ms[k].index && ms[k - 1].index < ms[k].index
      {
        assert ms[k] == rest[k - 1];
        if k > 1 {
          assert ms[k - 1] == rest[k - 2];
        } else {
          assert Next(m) <= rest[0].index;
        }
      }
    }
  }

  /** `lines.slice(max(0, i - 2), min(n, i + 3))`. */
  function Context(lines: seq<string>, i: nat): seq<string>
    requires i < |lines|
  {
    lines[Max(0, i - ContextLines)..Min(|lines|, i + ContextLines + 1)]
  }

  /**
   * The window holds the matched line and at most two lines on either
   * side of it, in file order, cut short only at the file's ends.
   */
  lemma ContextWindow(lines: seq<string>, i: nat)
    requires i < |lines|
    ensures var ctx := Context(lines, i);
      && 1 <= |ctx| <= 2 * ContextLines + 1
      && |ctx| == Min(|lines|, i + ContextLines + 1) - Max(0, i - ContextLines)
      && ctx[i - Max(0, i - ContextLines)] == lines[i]
      && forall k :: 0 <= k < |ctx| ==> ctx[k] == lines[Max(0, i - ContextLines) + k]
  {
  }

  /** The records of matches `ms` on line `i` (reported 1-based). */
  function LineResults(file: string, lines: seq<string>, i: nat, ms: seq<MatchAt>): seq<SearchResult>
    requires i < |lines|
  {
    if ms == [] then [] else [SearchResult(file, i + 1, ms[0].text, Context(lines, i))] + LineResults(file, lines, i, ms[1..])
  }

  /** One record per match, each naming line `i + 1` and carrying its context. */
  lemma {:induction false} LineResultsFacts(file: string, lines: seq<string>, i: nat, ms: seq<MatchAt>)
    requires i < |lines|
    ensures |LineResults(file, lines, i, ms)| == |ms|
    ensures forall k :: 0 <= k < |ms| ==> LineResults(file, lines, i, ms)[k] == SearchResult(file, i + 1, ms[k].text, Context(lines, i))
  {
    if ms != [] {
      LineResultsFacts(file, lines, i, ms[1..]);
      var rs := LineResults(file, lines, i, ms);
      assert forall k :: 0 < k < |rs| ==> rs[k] == LineResults(file, lines, i, ms[1..])[k - 1];
    }
  }

  /** Records for consecutive runs of matches concatenate. */
  lemma {:induction false} LineResultsAppend(file: string, lines: seq<string>, i: nat, a: seq<MatchAt>, b: seq<MatchAt>)
    requires i < |lines|
    ensures LineResults(file, lines, i, a + b) == LineResults(file, lines, i, a) + LineResults(file, lines, i, b)
  {
    if a != [] {
      assert (a + b)[1..] == a[1..] + b;
      LineResultsAppend(file, lines, i, a[1..], b);
    } else {
      assert a + b == b;
    }
  }

  /** The records found so far and the expression's `lastIndex`. */
  datatype Found = Found(results: seq<SearchResult>, lastIndex: nat)

  /**
   * One line. A global expression restarts at 0 and ends at 0 (the failing
   * `exec` resets it). A sticky one carries `lastIndex` from line to line;
   * any other ignores it.
   */
  function ScanLine(file: string, lines: seq<string>, i: nat, lastIndex: nat, global: bool, sticky: bool,
                    exec: (string, nat) -> Option<MatchAt>): (f: Found)
    requires WellBehaved(exec) && i < |lines|
    ensures !global ==> |f.results| <= 1
  {
    if global then Found(LineResults(file, lines, i, GlobalMatches(lines[i], 0, exec)), 0)
    else
      var from := if sticky then lastIndex else 0;
      match exec(lines[i], from)
      case None => Found([], if sticky then 0 else lastIndex)
      case Some(m) =>
        LineResultsFacts(file, lines, i, [m]);
        Found(LineResults(file, lines, i, [m]), if sticky then m.index + |m.text| else lastIndex)
  }

  /** Lines `0 .. k - 1` of one file. */
  function ScanLines(file: string, lines: seq<string>, k: nat, lastIndex: nat, global: bool, sticky: bool,
                     exec: (string, nat) -> Option<MatchAt>): Found
    requires WellBehaved(exec) && k <= |lines|
  {
    if k == 0 then Found([], lastIndex)
    else
      var prev := ScanLines(file, lines, k - 1, lastIndex, global, sticky, exec);
      var cur := ScanLine(file, lines, k - 1, prev.lastIndex, global, sticky, exec);
      Found(prev.results + cur.results, cur.lastIndex)
  }

  /**
   * Files `0 .. k - 1`. A file that cannot be read is skipped; a `null`
   * rejection makes the `catch` block throw, which ends the search.
   */
  function ScanFiles(files: seq<string>, k: nat, read: nat -> Outcome<string>, global: bool, sticky: bool,
                     exec: (string, nat) -> Option<MatchAt>): (r: Option<Found>)
    requires WellBehaved(exec) && k <= |files|
    ensures r.Some? && k > 0 && read(k - 1).Fails? ==> r == ScanFiles(files, k - 1, read, global, sticky, exec)
  {
    if k == 0 then Some(Found([], 0))
    else
      var prev := ScanFiles(files, k - 1, read, global, sticky, exec);
      if prev.None? then None
      else
        match read(k - 1)
        case Fails(e) => if e.Nullish? then None else prev
        case Done(content) =>
          var lines := Split(content, '\n');
          var cur := ScanLines(files[k - 1], lines, |lines|, prev.value.lastIndex, global, sticky, exec);
          Some(Found(prev.value.results + cur.results, cur.lastIndex))
  }

  /**
   * The tool as a whole: validate `regex`, split off and compile the flags
   * (`compile` gives the message of the `SyntaxError` the constructor
   * throws, if any), resolve `path`, run the glob for `file_pattern` and
   * scan every file.
   */
  function Search(root: seq<string>, args: Json, compile: (string, string) -> Option<string>,
                  exec: (string, nat) -> Option<MatchAt>, glob: (string, Json) -> Listing,
                  read: nat -> Outcome<string>, typeError: string): Result<seq<SearchResult>>
    requires ValidRoot(root) && WellBehaved(exec)
  {
    match RegexArg(args)
    case None => Err(MissingRegex)
    case Some(regex) =>
      var (pattern, flags) := SplitFlags(regex);
      if compile(pattern, flags).Some? then Err(McpError(InvalidParams, "Invalid regex pattern: " + compile(pattern, flags).value))
      else
        match ResolvePath(root, OrDefault(args, "path", "."))
        case Err(e) => Err(e)
        case Ok(target) =>
          match glob(target, OrDefault(args, "file_pattern", "*"))
          case GlobFailed(msg) => Err(McpError(InternalError, "Failed to search files: " + msg))
          case Listed(files) =>
            match ScanFiles(files, |files|, read, 'g' in flags, 'y' in flags, exec)
            case None => Err(McpError(InternalError, "Failed to search files: " + typeError))
            case Some(found) => Ok(found.results)
  }

  /** The matches of one line, pushed as the `while (exec(...))` loop finds them. */
  method MatchLine(file: string, lines: seq<string>, i: nat, lastIndex0: nat, global: bool, sticky: bool,
                   exec: (string, nat) -> Option<MatchAt>) returns (found: seq<SearchResult>, lastIndex: nat)
    requires WellBehaved(exec) && i < |lines|
    ensures Found(found, lastIndex) == ScanLine(file, lines, i, lastIndex0, global, sticky, exec)
  {
    var line := lines[i];
    found := [];
    lastIndex := lastIndex0;
    if global {
      found := GlobalLine(file, lines, i, exec);
      lastIndex := 0;
    } else {
      var matchResult := exec(line, if sticky then lastIndex else 0);
      if matchResult.Some? {
        found := LineResults(file, lines, i, [matchResult.value]);
        if sticky {
          lastIndex := matchResult.value.index + |matchResult.value.text|;
        }
      } else if sticky {
        lastIndex := 0;
      }
    }
  }

  /**
   * `handleSearchFiles`: the loops over files and lines, pushing every
   * match onto `results`.
   */
  method HandleSearchFiles(root: seq<string>, args: Json, compile: (string, string) -> Option<string>,
                           exec: (string, nat) -> Option<MatchAt>, glob: (string, Json) -> Listing,
                           read: nat -> Outcome<string>, typeError: string) returns (r: Result<seq<SearchResult>>)
    requires ValidRoot(root) && WellBehaved(exec)
    ensures r == Search(root, args, compile, exec, glob, read, typeError)
  {
    var regexString := RegexArg(args);
    if regexString.None? {
      return Err(MissingRegex);
    }
    var (pattern, flags) := SplitFlags(regexString.value);
    var syntaxError := compile(pattern, flags);
    if syntaxError.Some? {
      return Err(McpError(InvalidParams, "Invalid regex pattern: " + syntaxError.value));
    }
    var global, sticky := 'g' in flags, 'y' in flags;
    var targetPath := ResolvePath(root, OrDefault(args, "path", "."));
    if targetPath.Err? {
      return Err(targetPath.error);
    }
    var listing := glob(targetPath.value, OrDefault(args, "file_pattern", "*"));
    if listing.GlobFailed? {
      return Err(McpError(InternalError, "Failed to search files: " + listing.message));
    }
    var found := SearchAll(listing.files, read, global, sticky, exec);
    if found.None? {
      return Err(McpError(InternalError, "Failed to search files: " + typeError));
    }
    return Ok(found.value.results);
  }

  /** The loop over the files the glob listed. */
  method SearchAll(files: seq<string>, read: nat -> Outcome<string>, global: bool, sticky: bool,
                   exec: (string, nat) -> Option<MatchAt>) returns (r: Option<Found>)
    requires WellBehaved(exec)
    ensures r == ScanFiles(files, |files|, read, global, sticky, exec)
  {
    var results: seq<SearchResult> := [];
    var lastIndex: nat := 0;
    for j := 0 to |files|
      invariant ScanFiles(files, j, read, global, sticky, exec) == Some(Found(results, lastIndex))
    {
      var content := read(j);
      if content.Fails? {
        if content.err == Nullish {
          NullEndsSearch(files, j + 1, |files|, read, global, sticky, exec);
          return None;
        }
      } else {
        var fileFound;
        fileFound, lastIndex := SearchFile(files[j], content.value, lastIndex, global, sticky, exec);
        results := results + fileFound;
      }
    }
    return Some(Found(results, lastIndex));
  }

  /** The loop over the lines of one file. */
  method SearchFile(file: string, content: string, lastIndex0: nat, global: bool, sticky: bool,
                    exec: (string, nat) -> Option<MatchAt>) returns (found: seq<SearchResult>, lastIndex: nat)
    requires WellBehaved(exec)
    ensures var lines := Split(content, '\n'); Found(found, lastIndex) == ScanLines(file, lines, |lines|, lastIndex0, global, sticky, exec)
  {
    var lines := Split(content, '\n');
    found, lastIndex := [], lastIndex0;
    for i := 0 to |lines|
      invariant Found(found, lastIndex) == ScanLines(file, lines, i, lastIndex0, global, sticky, exec)
    {
      var lineFound;
      lineFound, lastIndex := MatchLine(file, lines, i, lastIndex, global, sticky, exec);
      found := found + lineFound;
    }
  }

  // ---------------------------------------------------------------------
  // Properties
  // ---------------------------------------------------------------------

  /** Every record names one of lines `1 .. k` and carries that line's window. */
  predicate Reported(lines: seq<string>, k: nat, rs: seq<SearchResult>)
    requires k <= |lines|
  {
    forall n :: 0 <= n < |rs| ==> 1 <= rs[n].line <= k && rs[n].context == Context(lines, rs[n].line - 1)
  }

  /** Every record of one line names that line (1-based) and carries its window. */
  lemma ScanLineReported(file: string, lines: seq<string>, i: nat, lastIndex: nat, global: bool, sticky: bool,
                         exec: (string, nat) -> Option<MatchAt>)
    requires WellBehaved(exec) && i < |lines|
    ensures var rs := ScanLine(file, lines, i, lastIndex, global, sticky, exec).results;
      forall n :: 0 <= n < |rs| ==> rs[n].line == i + 1 && rs[n].context == Context(lines, i)
  {
    if global {
      LineResultsFacts(file, lines, i, GlobalMatches(lines[i], 0, exec));
    } else {
      var m := exec(lines[i], if sticky then lastIndex else 0);
      if m.Some? {
        LineResultsFacts(file, lines, i, [m.value]);
      }
    }
  }

  /** Records of line `k` appended after records of lines `1 .. k - 1` keep the property. */
  lemma ReportedAppend(lines: seq<string>, k: nat, a: seq<SearchResult>, b: seq<SearchResult>)
    requires 0 < k <= |lines| && Reported(lines, k - 1, a)
    requires forall n :: 0 <= n < |b| ==> b[n].line == k && b[n].context == Context(lines, k - 1)
    ensures Reported(lines, k, a + b)
  {
    var rs := a + b;
    forall n | 0 <= n < |rs|
      ensures 1 <= rs[n].line <= k && rs[n].context == Context(lines, rs[n].line - 1)
    {
      if n < |a| {
        assert rs[n] == a[n];
      } else {
        assert rs[n] == b[n - |a|];
      }
    }
  }

  /**
   * Every record of a file names a line that exists (1-based) and carries
   * that line's context window.
   */
  lemma {:induction false} LinesReported(file: string, lines: seq<string>, k: nat, lastIndex: nat, global: bool, sticky: bool,
                                         exec: (string, nat) -> Option<MatchAt>)
    requires WellBehaved(exec) && k <= |lines|
    ensures Reported(lines, k, ScanLines(file, lines, k, lastIndex, global, sticky, exec).results)
  {
    if k > 0 {
      LinesReported(file, lines, k - 1, lastIndex, global, sticky, exec);
      var prev := ScanLines(file, lines, k - 1, lastIndex, global, sticky, exec);
      ScanLineReported(file, lines, k - 1, prev.lastIndex, global, sticky, exec);
      var cur := ScanLine(file, lines, k - 1, prev.lastIndex, global, sticky, exec);
      ReportedAppend(lines, k, prev.results, cur.results);
    }
  }

  /** Once a `null` rejection has ended the search, later files change nothing. */
  lemma {:induction false} NullEndsSearch(files: seq<string>, j: nat, k: nat, read: nat -> Outcome<string>, global: bool, sticky: bool,
                                          exec: (string, nat) -> Option<MatchAt>)
    requires WellBehaved(exec) && j <= k <= |files|
    requires ScanFiles(files, j, read, global, sticky, exec).None?
    ensures ScanFiles(files, k, read, global, sticky, exec).None?
    decreases k - j
  {
    if j < k {
      NullEndsSearch(files, j + 1, k, read, global, sticky, exec);
    }
  }

  /** Without the `g` flag there is at most one record per line. */
  lemma {:induction false} OnePerLine(file: string, lines: seq<string>, k: nat, lastIndex: nat, sticky: bool,
                                      exec: (string, nat) -> Option<MatchAt>)
    requires WellBehaved(exec) && k <= |lines|
    ensures |ScanLines(file, lines, k, lastIndex, false, sticky, exec).results| <= k
  {
    if k > 0 {
      OnePerLine(file, lines, k - 1, lastIndex, sticky, exec);
    }
  }

  /** With no `path` argument the search starts at the root. */
  lemma PathDefaultsToRoot(root: seq<string>, args: Json)
    requires ValidRoot(root) && Field(args, "path").None?
    ensures ResolvePath(root, OrDefault(args, "path", ".")) == Ok(RootString(root))
  {
    DotIsRoot(root);
  }
}
