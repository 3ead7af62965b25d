/**
 * The line engine of the `edit_file` tool: one change applied to the
 * `lines` array of a file. A change either inserts indented lines at a
 * line number, or finds the n-th block of lines that matches a search
 * pattern (optionally ignoring leading whitespace) at or below a line
 * number and replaces or deletes it.
 */
module EditLines {
  import opened Common

  /**
   * One change after validation: `search_pattern` and `replace_content`
   * are optional; the flags and `match_occurrence` have their defaults
   * filled in.
   */
  datatype Change = Change(path: string, search: Option<string>, startLine: int, replace: Option<string>,
                           useRegex: bool, ignoreWhitespace: bool, preserveIndentation: bool, occurrence: int)

  /** The lines after a change, and whether the change succeeded. */
  datatype Applied = Applied(lines: seq<string>, succeeded: bool)

  // ---------------------------------------------------------------------
  // Indentation
  // ---------------------------------------------------------------------

  /** `applyIndentation(content, indent)`: every line of `content`, prefixed by `indent`. */
  function ApplyIndentation(content: string, indent: string): (r: seq<string>)
    ensures |r| == |Split(content, '\n')|
    ensures forall k :: 0 <= k < |r| ==> r[k] == indent + Split(content, '\n')[k]
  {
    var parts := Split(content, '\n');
    seq(|parts|, k requires 0 <= k < |parts| => indent + parts[k])
  }

  /**
   * With no indentation the inserted lines join back into exactly the
   * replacement text.
   */
  lemma {:induction false} UnindentedIsContent(content: string)
    ensures Join(ApplyIndentation(content, ""), "\n") == content
  {
    var parts := Split(content, '\n');
    assert ApplyIndentation(content, "") == parts by {
      forall k | 0 <= k < |parts|
        ensures ApplyIndentation(content, "")[k] == parts[k]
      {
        assert "" + parts[k] == parts[k];
      }
    }
    JoinSplit(content, '\n');
  }

  // ---------------------------------------------------------------------
  // Matching
  // ---------------------------------------------------------------------

  /**
   * One line of the file against one line of the pattern. Ignoring
   * leading whitespace trims the pattern line, and trims the file line
   * only when the pattern line is not blank.
   */
  predicate LineMatches(fileLine: string, searchLine: string, ignoreWhitespace: bool)
  {
    if ignoreWhitespace then
      (if !Blank(searchLine) then TrimStart(fileLine) else fileLine) == TrimStart(searchLine)
    else fileLine == searchLine
  }

  /** The pattern's lines match the file's lines `i ..` one for one. */
  predicate BlockAt(lines: seq<string>, searchLines: seq<string>, ignoreWhitespace: bool, i: int)
  {
    0 <= i && i + |searchLines| <= |lines|
    && forall j :: 0 <= j < |searchLines| ==> LineMatches(lines[i + j], searchLines[j], ignoreWhitespace)
  }

  /** The number of matching blocks starting at `from .. to - 1`. */
  function MatchCount(lines: seq<string>, searchLines: seq<string>, ignoreWhitespace: bool, from: int, to: int): nat
    decreases to - from
  {
    if from >= to then 0
    else (if BlockAt(lines, searchLines, ignoreWhitespace, from) then 1 else 0)
         + MatchCount(lines, searchLines, ignoreWhitespace, from + 1, to)
  }

  /**
   * The scan from line `i` down to the last place a block fits: the
   * position of the `need`-th matching block, or -1.
   */
  function Occurrence(lines: seq<string>, searchLines: seq<string>, ignoreWhitespace: bool, i: int, need: int): (r: int)
    ensures r == -1 || (0 <= r && r + |searchLines| <= |lines|)
    decreases |lines| - i
  {
    if i > |lines| - |searchLines| then -1
    else if BlockAt(lines, searchLines, ignoreWhitespace, i) then
      if need == 1 then i else Occurrence(lines, searchLines, ignoreWhitespace, i + 1, need - 1)
    else Occurrence(lines, searchLines, ignoreWhitespace, i + 1, need)
  }

  /**
   * What the scan finds: a block that matches, with exactly `need - 1`
   * matching blocks before it since `i`; and when it finds nothing, fewer
   * than `need` blocks match anywhere from `i` on.
   */
  lemma {:induction false} OccurrenceFacts(lines: seq<string>, searchLines: seq<string>, ignoreWhitespace: bool, i: int, need: int)
    ensures Occurrence(lines, searchLines, ignoreWhitespace, i, need) >= 0 ==>
      var r := Occurrence(lines, searchLines, ignoreWhitespace, i, need);
      i <= r && BlockAt(lines, searchLines, ignoreWhitespace, r) && MatchCount(lines, searchLines, ignoreWhitespace, i, r) == need - 1
    ensures Occurrence(lines, searchLines, ignoreWhitespace, i, need) == -1 ==>
      need < 1 || MatchCount(lines, searchLines, ignoreWhitespace, i, |lines| - |searchLines| + 1) < need
    decreases |lines| - i
  {
    var r := Occurrence(lines, searchLines, ignoreWhitespace, i, need);
    if i <= |lines| - |searchLines| {
      var hit := BlockAt(lines, searchLines, ignoreWhitespace, i);
      if hit && need == 1 {
        assert r == i;
      } else {
        var need' := if hit then need - 1 else need;
        OccurrenceFacts(lines, searchLines, ignoreWhitespace, i + 1, need');
        assert r == Occurrence(lines, searchLines, ignoreWhitespace, i + 1, need');
      }
    }
  }

  /** The inner loop: whether every pattern line matches the file line `i` lines further on. */
  method MatchesAt(lines: seq<string>, searchLines: seq<string>, ignoreWhitespace: bool, i: int) returns (isMatch: bool)
    requires 0 <= i && i + |searchLines| <= |lines|
    ensures isMatch <==> BlockAt(lines, searchLines, ignoreWhitespace, i)
  {
    isMatch := true;
    var j := 0;
    ghost var mismatch := 0;
    while j < |searchLines| && isMatch
      invariant 0 <= j <= |searchLines|
      invariant isMatch ==> forall k :: 0 <= k < j ==> LineMatches(lines[i + k], searchLines[k], ignoreWhitespace)
      invariant !isMatch ==> 0 <= mismatch < |searchLines| && !LineMatches(lines[i + mismatch], searchLines[mismatch], ignoreWhitespace)
    {
      var same := CompareLine(lines[i + j], searchLines[j], ignoreWhitespace);
      if !same {
        isMatch := false;
        mismatch := j;
      }
      j := j + 1;
    }
  }

  /** One step of the inner loop: trim both lines when whitespace is ignored, then compare. */
  method CompareLine(fileLine: string, searchLine: string, ignoreWhitespace: bool) returns (same: bool)
    ensures same <==> LineMatches(fileLine, searchLine, ignoreWhitespace)
  {
    var f, t := fileLine, searchLine;
    if ignoreWhitespace {
      if !Blank(t) {
        f := TrimStart(f);
      }
      t := TrimStart(t);
    }
    same := f == t;
  }

  /**
   * The nested loops of the plain-text search: count matching blocks from
   * `start` and stop at the `occurrence`-th.
   */
  method FindOccurrence(lines: seq<string>, searchLines: seq<string>, ignoreWhitespace: bool, start: int, occurrence: int)
    returns (matchStart: int)
    ensures matchStart == Occurrence(lines, searchLines, ignoreWhitespace, start, occurrence)
  {
    var occurrencesFound := 0;
    var i := start;
    while i <= |lines| - |searchLines|
      invariant Occurrence(lines, searchLines, ignoreWhitespace, start, occurrence)
             == Occurrence(lines, searchLines, ignoreWhitespace, i, occurrence - occurrencesFound)
      decreases |lines| - i
    {
      if i < 0 {
        i := i + 1;
        continue;
      }
      var isMatch := MatchesAt(lines, searchLines, ignoreWhitespace, i);
      if isMatch {
        occurrencesFound := occurrencesFound + 1;
        if occurrencesFound == occurrence {
          return i;
        }
      }
      i := i + 1;
    }
    return -1;
  }

  // ---------------------------------------------------------------------
  // One change
  // ---------------------------------------------------------------------

  /** The insertion branch: no (or an empty) search pattern, and replacement text. */
  predicate Inserts(c: Change)
  {
    (c.search.None? || c.search.value == "") && c.replace.Some?
  }

  /** The search branch: a non-empty search pattern. */
  predicate Searches(c: Change)
  {
    c.search.Some? && c.search.value != ""
  }

  /**
   * The indentation of inserted lines: that of the line above the
   * insertion point, or the file's own indentation (`fileIndent`, what
   * `detect-indent` finds) when inserting at the top.
   */
  function InsertIndent(lines: seq<string>, at: nat, preserve: bool, fileIndent: string): string
    requires at <= |lines|
  {
    if !preserve then ""
    else if at > 0 then LeadingWhitespace(lines[at - 1])
    else if |lines| > 0 then fileIndent
    else ""
  }

  /** The indentation of replacement lines: that of the first matched line. */
  function MatchIndent(lines: seq<string>, m: nat, preserve: bool): string
  {
    if preserve && m < |lines| then LeadingWhitespace(lines[m]) else ""
  }

  /** Where the scan for a search pattern starts. */
  function SearchStart(lines: seq<string>, c: Change): int
  {
    Min(c.startLine - 1, |lines| - 1)
  }

  /** The `splice` a change performs on `lines`, and whether it succeeded. */
  function Edit(lines: seq<string>, c: Change, fileIndent: string): Applied
  {
    if c.startLine - 1 < 0 then Applied(lines, false)
    else if Inserts(c) then
      var at := Min(c.startLine - 1, |lines|);
      Applied(lines[..at] + ApplyIndentation(c.replace.value, InsertIndent(lines, at, c.preserveIndentation, fileIndent)) + lines[at..], true)
    else if Searches(c) then
      if c.useRegex then Applied(lines, false)
      else
        var searchLines := Split(c.search.value, '\n');
        var m := Occurrence(lines, searchLines, c.ignoreWhitespace, SearchStart(lines, c), c.occurrence);
        if m < 0 then Applied(lines, false)
        else if c.replace.Some? then
          Applied(lines[..m] + ApplyIndentation(c.replace.value, MatchIndent(lines, m, c.preserveIndentation)) + lines[m + |searchLines|..], true)
        else Applied(lines[..m] + lines[m + |searchLines|..], true)
    else Applied(lines, false)
  }

  /** One pass of the change loop's body over the `lines` array. */
  method ApplyChange(lines: seq<string>, c: Change, fileIndent: string) returns (newLines: seq<string>, succeeded: bool)
    ensures Applied(newLines, succeeded) == Edit(lines, c, fileIndent)
  {
    newLines, succeeded := lines, false;
    var targetLineIndex := c.startLine - 1;
    if targetLineIndex < 0 {
      return;
    }
    if Inserts(c) {
      var effectiveInsertionLine := Min(targetLineIndex, |lines|);
      var indent := "";
      if c.preserveIndentation {
        if effectiveInsertionLine > 0 {
          indent := LeadingWhitespace(lines[effectiveInsertionLine - 1]);
        } else if |lines| > 0 {
          indent := fileIndent;
        }
      }
      assert indent == InsertIndent(lines, effectiveInsertionLine, c.preserveIndentation, fileIndent);
      var replacementLines := ApplyIndentation(c.replace.value, indent);
      newLines := lines[..effectiveInsertionLine] + replacementLines + lines[effectiveInsertionLine..];
      succeeded := true;
      assert Applied(newLines, succeeded) == Edit(lines, c, fileIndent);
    } else if Searches(c) {
      if c.useRegex {
        return;
      }
      var searchLines := Split(c.search.value, '\n');
      assert Min(targetLineIndex, |lines| - 1) == SearchStart(lines, c);
      var matchStartIndex := FindOccurrence(lines, searchLines, c.ignoreWhitespace, Min(targetLineIndex, |lines| - 1), c.occurrence);
      if matchStartIndex != -1 {
        var matchEndIndex := matchStartIndex + |searchLines|;
        var indent := "";
        if c.preserveIndentation && matchStartIndex < |lines| {
          indent := LeadingWhitespace(lines[matchStartIndex]);
        }
        assert indent == MatchIndent(lines, matchStartIndex, c.preserveIndentation);
        if c.replace.Some? {
          var replacementLines := ApplyIndentation(c.replace.value, indent);
          newLines := lines[..matchStartIndex] + replacementLines + lines[matchEndIndex..];
          assert Applied(newLines, true) == Edit(lines, c, fileIndent);
        } else {
          newLines := lines[..matchStartIndex] + lines[matchEndIndex..];
          assert Applied(newLines, true) == Edit(lines, c, fileIndent);
        }
        succeeded := true;
      }
    }
  }

  // ---------------------------------------------------------------------
  // Properties
  // ---------------------------------------------------------------------

  /**
   * An insertion puts the indented replacement lines at
   * `min(start_line - 1, lines.length)` and keeps every other line, the
   * ones below shifted down by the number of inserted lines.
   */
  lemma InsertionPlacement(lines: seq<string>, c: Change, fileIndent: string)
    requires c.startLine >= 1 && Inserts(c)
    ensures var at := Min(c.startLine - 1, |lines|);
      var inserted := ApplyIndentation(c.replace.value, InsertIndent(lines, at, c.preserveIndentation, fileIndent));
      var a := Edit(lines, c, fileIndent);
      && a.succeeded
      && |a.lines| == |lines| + |inserted|
      && a.lines[..at] == lines[..at]
      && a.lines[at..at + |inserted|] == inserted
      && a.lines[at + |inserted|..] == lines[at..]
  {
  }

  /**
   * A search change that finds its block replaces (or, without
   * replacement text, removes) exactly the `|searchLines|` lines of the
   * `match_occurrence`-th matching block at or below the start line, and
   * keeps every other line.
   */
  lemma SearchPlacement(lines: seq<string>, c: Change, fileIndent: string)
    requires c.startLine >= 1 && !Inserts(c) && Searches(c) && !c.useRegex
    ensures var searchLines := Split(c.search.value, '\n');
      var start := SearchStart(lines, c);
      var m := Occurrence(lines, searchLines, c.ignoreWhitespace, start, c.occurrence);
      var a := Edit(lines, c, fileIndent);
      var inserted := if c.replace.Some? && m >= 0 then ApplyIndentation(c.replace.value, MatchIndent(lines, m, c.preserveIndentation)) else [];
      m >= 0 ==>
        && a.succeeded
        && BlockAt(lines, searchLines, c.ignoreWhitespace, m)
        && MatchCount(lines, searchLines, c.ignoreWhitespace, start, m) == c.occurrence - 1
        && |a.lines| == |lines| - |searchLines| + |inserted|
        && a.lines[..m] == lines[..m]
        && a.lines[m..m + |inserted|] == inserted
        && a.lines[m + |inserted|..] == lines[m + |searchLines|..]
  {
    var searchLines := Split(c.search.value, '\n');
    OccurrenceFacts(lines, searchLines, c.ignoreWhitespace, SearchStart(lines, c), c.occurrence);
  }

  /** A search change that finds no block leaves the lines as they are. */
  lemma NotFoundUnchanged(lines: seq<string>, c: Change, fileIndent: string)
    requires c.startLine >= 1 && c.occurrence >= 1 && !Inserts(c) && Searches(c) && !c.useRegex
    requires Occurrence(lines, Split(c.search.value, '\n'), c.ignoreWhitespace, SearchStart(lines, c), c.occurrence) < 0
    ensures Edit(lines, c, fileIndent) == Applied(lines, false)
  {
    var searchLines := Split(c.search.value, '\n');
    var start := SearchStart(lines, c);
    assert Occurrence(lines, searchLines, c.ignoreWhitespace, start, c.occurrence) == -1;
  }

  /** A change with `use_regex` and a search pattern is skipped and changes nothing. */
  lemma RegexSkipped(lines: seq<string>, c: Change, fileIndent: string)
    requires Searches(c) && c.useRegex
    ensures Edit(lines, c, fileIndent) == Applied(lines, false)
  {
  }

  /** A change with neither a search pattern nor replacement text changes nothing. */
  lemma NothingToDo(lines: seq<string>, c: Change, fileIndent: string)
    requires !Inserts(c) && !Searches(c)
    ensures Edit(lines, c, fileIndent) == Applied(lines, false)
  {
  }
}
