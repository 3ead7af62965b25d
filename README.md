# filesystem-mcp: a Dafny model of the tool logic

This project models the decision logic of an MCP (Model Context Protocol)
server that gives a client tools to read, write, edit, search and manage
files below a project root, and to extract text from PDF documents. Every
tool takes the raw JSON arguments of a `CallTool` request. It validates
them, resolves each user path inside the sandbox, performs filesystem
calls and returns one record per input item, or raises an `McpError`.

There is one Dafny module per core source file, plus three shared modules:

- `Common`: JSON arguments, MCP error kinds and their JSON-RPC codes, the values a failed filesystem call rejects with, and string helpers.
- `BatchOrder`: `Promise.allSettled` reconciliation and the stable in-place sort by input position.
- `PdfShared` and `Transfer`: what the two PDF tools, and the move and copy tools, have in common.

Filesystem calls, the PDF libraries, `fetch`, the regular-expression
engine, `detect-indent` and the diff generator do not run in the model.
Their outcomes are parameters of the handler functions, for example
`read: string -> Outcome<string>`. Each handler is written twice:

- as a method that follows the source step by step (its loops, pushes and in-place sorts);
- as a specification function that describes the reply.

Each method's `ensures` ties it to its specification function. The lemmas
then state what the tool promises about that function: records in input
order, error classification, round trips, page selection, and so on.

The sandbox works on paths as segment lists over a fixed root. The
containment test the source performs is a plain string-prefix test. The
model proves what that test accepts, and also proves the separator-aware
test that was evidently intended (see Findings).

## Model

| member | source | states |
|---|---|---|
| PathUtils.ResolvePath | src/utils/pathUtils.ts:21-35 | a non-string is `InvalidParams` `Path must be a string.`; a path absolute after normalisation is refused with `Absolute paths are not allowed.`; otherwise the result is the raw segments walked from the root, accepted exactly when it starts with the root string, else `InvalidRequest` traversal; every accepted result starts with `PROJECT_ROOT` |
| PathUtils.NormalizeKeepsAbsolute | src/utils/pathUtils.ts:25-26 | normalising keeps a path absolute exactly when it was absolute |
| PathUtils.WalkNormalized | src/utils/pathUtils.ts:25-30 | resolving the normalised segments from the root ends where the raw segments lead |
| PathUtils.SplitNormalized | src/utils/pathUtils.ts:25-30 | the string form of `normalize(p)` walks from the root like its segment list |
| PathUtils.ResolveNormalized | src/utils/pathUtils.ts:25-30 | `resolve(root, normalize(p))` is `/` joined with the walk of the raw segments of `p` from the root, never above `/` |
| PathUtils.WalkStacked | src/utils/pathUtils.ts:30 | a walk that may not climb above `/` keeps the stack a valid absolute path of plain segments |
| PathUtils.DotIsRoot | src/utils/pathUtils.ts:30-35 | `.` and the empty path resolve to exactly `PROJECT_ROOT` and are accepted |
| PathUtils.PlainPathAccepted | src/utils/pathUtils.ts:25-35 | a path of ordinary segments is always accepted and yields the root, `/`, and the segments joined |
| PathUtils.PlainResolved | src/utils/pathUtils.ts:25-30 | ordinary segments are relative and are appended to the root's segments |
| PathUtils.Accepted | src/utils/pathUtils.ts:30-35 | a relative path whose resolution starts with the root string is returned resolved |
| PathUtils.SiblingPrefixAccepted | src/utils/pathUtils.ts:32-35 | with root `/w/proj`, `../proj2/x` is accepted as `/w/proj2/x`, which is not below the root |
| PathUtils.ResolvePathContained | src/utils/pathUtils.ts:32-35 | corrected containment: accepted exactly when the input is a relative string whose resolution is the root or lies below it |
| PathUtils.InsideIsDescendant | src/utils/pathUtils.ts:32-34 | the separator-aware prefix test holds exactly for the root and its descendants |
| StatsUtils.ToOctal | src/utils/statsUtils.ts:12 | `n.toString(8)` is a non-empty octal digit string, with one, two or three digits below 8, 64 and 512 |
| StatsUtils.PadStart | src/utils/statsUtils.ts:12 | `padStart` gives the longer of the string and the width |
| StatsUtils.ModeOctal | src/utils/statsUtils.ts:12 | the rendered mode is three octal digits denoting the mode modulo 0o1000 |
| StatsUtils.ModeDigits | src/utils/statsUtils.ts:12 | below 512 the padded rendering is the three base-8 digits, most significant first |
| StatsUtils.ModeMask | src/utils/statsUtils.ts:12 | only the permission bits reach the rendering |
| StatsUtils.OctalRoundTrip | src/utils/statsUtils.ts:12 | a three-digit octal string is the rendering of the number it denotes |
| StatsUtils.OctalInjective3 | src/utils/statsUtils.ts:12 | two three-digit octal renderings with the same value are the same string, so the rendering loses nothing below 512 |
| StatsUtils.FormatStats | src/utils/statsUtils.ts:10-26 | the record's path has every `\` replaced by `/`; the type flags, size, uid and gid are copied; the mode is the three-digit rendering |
| BatchOrder.Reconcile | src/handlers/deleteItems.ts:46-53 | one record per item: the fulfilled value, or that index's fallback record for a rejected promise |
| BatchOrder.IndexOf | src/handlers/deleteItems.ts:56 | `indexOf` is the first position of the element, or -1 exactly when it is absent |
| BatchOrder.IndexOfDistinct | src/handlers/deleteItems.ts:56 | in a list without repeats `indexOf` finds each element at its own position |
| BatchOrder.SortInPlace | src/handlers/deleteItems.ts:56 | the in-place sort with a key-difference comparator leaves the stable sort of the old contents |
| BatchOrder.SortedCopy | src/handlers/deleteItems.ts:56 | the sorted records are a permutation of the records, ordered by the key |
| BatchOrder.SortByFacts | src/handlers/deleteItems.ts:56 | the sort is a permutation and its result is ordered by the key |
| BatchOrder.SortByKeepsSorted | src/handlers/deleteItems.ts:56 | records already ordered by the key are left as they are |
| BatchOrder.SortByStable | src/handlers/deleteItems.ts:56 | records with equal keys keep their relative order |
| BatchOrder.SortByOrder | src/handlers/deleteItems.ts:56 | the sort is a permutation, ordered by key, and the items of each key keep their input order |
| BatchOrder.SortedUnique | src/handlers/deleteItems.ts:56 | two key-ordered lists with the same elements, one with distinct keys, are equal |
| BatchOrder.RestoresOrder | src/handlers/deleteItems.ts:56 | whatever order records arrive in, sorting by a key that increases strictly along the input order restores the input order |
| BatchOrder.IdentityKeys | src/handlers/deleteItems.ts:56 | records whose paths are distinct inputs, in input order, are unchanged by the sort by `indexOf` |
| DeleteItems.DeleteOne | src/handlers/deleteItems.ts:23-43 | an item's promise rejects only when `fs.rm` throws a nullish value for an operable path; otherwise the record carries the slash-normalised path, an error exactly when unsuccessful, a note exactly for a missing path counted as deleted, and, when resolution fails, the resolution error's `error.message`: `MCP error <code>: ` followed by the text it was raised with |
| DeleteItems.Outputs | src/handlers/deleteItems.ts:23-53 | one record per input path, in input order, carrying that path with `\` turned into `/` |
| DeleteItems.HandleDeleteItems | src/handlers/deleteItems.ts:9-58 | `InvalidParams` exactly when `paths` is not a non-empty array of strings; otherwise the records sorted by the input position of their path |
| DeleteItems.InputOrder | src/handlers/deleteItems.ts:55-56 | distinct inputs without backslashes come back in input order |
| DeleteItems.RootIsRefused | src/handlers/deleteItems.ts:26-29 | any path resolving to the root is refused without calling `fs.rm` |
| DeleteItems.MissingIsDeleted | src/handlers/deleteItems.ts:33-35 | a missing path is reported as deleted with the note `Path not found, nothing to delete` |
| ChmodItems.ModeArg | src/handlers/chmodItems.ts:16-18 | the mode is accepted exactly when it is a string of three or four octal digits |
| ChmodItems.ChmodOne | src/handlers/chmodItems.ts:29-49 | the promise rejects only on a nullish throw for an operable path; success exactly when the path is operable and `fs.chmod` succeeds, echoing the mode string; the root is refused; ENOENT gives its message; a resolution error's text is its `error.message`, `MCP error <code>: ` followed by the text it was raised with |
| ChmodItems.Outputs | src/handlers/chmodItems.ts:29-59 | one record per input path, in input order, carrying the slash-normalised path |
| ChmodItems.HandleChmodItems | src/handlers/chmodItems.ts:9-65 | `paths` is checked before `mode`, each with its own `InvalidParams` message; otherwise the records sorted by input position |
| ChmodItems.InputOrder | src/handlers/chmodItems.ts:61-62 | distinct inputs without backslashes come back in input order |
| ChmodItems.SuccessUsesParsedMode | src/handlers/chmodItems.ts:19-37 | a successful item was changed with `parseInt(mode, 8)` and echoes the mode string |
| ChmodItems.ModeShownByStat | src/handlers/chmodItems.ts:16-19 | the mode `stat` later renders for an accepted mode string is its last three digits |
| ChownItems.NumberArg | src/handlers/chownItems.ts:18-23 | a uid or gid is accepted exactly when it is a number |
| ChownItems.ChownOne | src/handlers/chownItems.ts:34-57 | the promise rejects only on a nullish throw for an operable path; success exactly when operable and `fs.chown` succeeds, echoing uid and gid; ENOENT is tested before EPERM, each with its own message; a resolution error's text is its `error.message`, `MCP error <code>: ` followed by the text it was raised with |
| ChownItems.Outputs | src/handlers/chownItems.ts:34-67 | one record per input path, in input order, carrying the slash-normalised path |
| ChownItems.HandleChownItems | src/handlers/chownItems.ts:10-72 | `paths`, then `uid`, then `gid` are checked, each with its own `InvalidParams` message; otherwise the records sorted by input position |
| ChownItems.InputOrder | src/handlers/chownItems.ts:69-70 | distinct inputs without backslashes come back in input order |
| Transfer.ToOperation | src/handlers/moveItems.ts:25-26 | an accepted entry's `source` and `destination` strings |
| Transfer.Operations | src/handlers/moveItems.ts:11-14 | `operations` is accepted exactly when it is a non-empty array of objects with string `source` and `destination`, which it yields in order |
| Transfer.ResolveBoth | src/handlers/moveItems.ts:31-32 | the source is resolved before the destination; the first resolution error wins, and success yields the resolved source |
| Transfer.Failure | src/handlers/moveItems.ts:46-59 | the `catch` text: ENOENT names the source, EPERM or EACCES name both paths, a resolution error gives its `error.message` (`MCP error <code>: ` and its text), other errors `Failed to ... item:`; `None` exactly for a nullish throw |
| MoveItems.MoveOne | src/handlers/moveItems.ts:24-60 | success exactly when both paths resolve, the source is not the root, and the parent creation and `rename` succeed; a root source is refused; a resolution failure gives the formatted `MCP error <code>: ` text; other failures give the `catch` text; a nullish throw rejects the promise |
| MoveItems.Outputs | src/handlers/moveItems.ts:24-71 | one record per operation, in input order, with slash-normalised source and destination |
| MoveItems.HandleMoveItems | src/handlers/moveItems.ts:10-77 | the promise rejects with a `TypeError` exactly when the first entry the validation refuses is `null`; otherwise `InvalidParams` exactly when `operations` is invalid, and else one record per operation, unsorted |
| MoveItems.DestinationRootNotRefused | src/handlers/moveItems.ts:34-45 | only the source is compared with the root, so moving onto the root itself is attempted and can succeed |
| CopyItems.CopyOne | src/handlers/copyItems.ts:24-71 | success exactly when both paths resolve, the source is not the root, and every filesystem call reached succeeds, with the `stat` fallback refusing directories when `fs.cp` is missing; a resolution failure gives the formatted `MCP error <code>: ` text; other failures give the `catch` text |
| CopyItems.Outputs | src/handlers/copyItems.ts:24-82 | one record per operation, in input order, with slash-normalised source and destination |
| CopyItems.HandleCopyItems | src/handlers/copyItems.ts:10-87 | the promise rejects with a `TypeError` exactly when the first entry the validation refuses is `null`; otherwise `InvalidParams` exactly when `operations` is invalid, and else one record per operation, unsorted |
| CreateDirectories.CreateOne | src/handlers/createDirectories.ts:24-62 | success exactly when the path is operable and `mkdir` succeeds or fails with EEXIST on an existing directory, the latter with the note `Directory already exists`; a non-directory, EPERM/EACCES and the root each get their own text; a resolution error's text is its `error.message`, `MCP error <code>: ` followed by the text it was raised with; a nullish throw rejects the promise |
| CreateDirectories.Outputs | src/handlers/createDirectories.ts:24-73 | one record per input path, in input order, carrying the slash-normalised path |
| CreateDirectories.HandleCreateDirectories | src/handlers/createDirectories.ts:9-79 | `InvalidParams` exactly when `paths` is not a non-empty array of strings; otherwise the records sorted by input position |
| CreateDirectories.InputOrder | src/handlers/createDirectories.ts:75-76 | distinct inputs without backslashes come back in input order |
| CreateDirectories.ExistingDirectoryIsSuccess | src/handlers/createDirectories.ts:37-41 | a directory that already exists is reported as created, with a note |
| ReadContent.ReadOne | src/handlers/readContent.ts:22-42 | a record has content exactly when it has no error, and the content is what `readFile` returned; a non-file and ENOENT from `stat` or `readFile` each give their own text; a resolution error's text is its `error.message`, `MCP error <code>: ` followed by the text it was raised with; a nullish throw rejects the promise |
| ReadContent.Outputs | src/handlers/readContent.ts:22-53 | one record per input path, in input order, each with content or an error but not both |
| ReadContent.HandleReadContent | src/handlers/readContent.ts:9-59 | `InvalidParams` exactly when `paths` is invalid; otherwise the records sorted by input position, each with content or an error |
| ReadContent.InputOrder | src/handlers/readContent.ts:55-56 | distinct inputs without backslashes come back in input order |
| WriteContent.ToItem | src/handlers/writeContent.ts:25-27 | an accepted entry's path and content; `append` holds exactly when the field is present and truthy |
| WriteContent.Items | src/handlers/writeContent.ts:11-14 | `items` is accepted exactly when it is a non-empty array of objects with string `path` and `content` |
| WriteContent.WriteOne | src/handlers/writeContent.ts:24-52 | success exactly when the path is operable and both the parent creation and the write succeed; the text of a filesystem failure says `append` or `write` as the flag does; a resolution error's text is its `error.message`, `MCP error <code>: ` followed by the text it was raised with; a nullish throw rejects the promise |
| WriteContent.Outputs | src/handlers/writeContent.ts:24-62 | one record per item, in input order, carrying the slash-normalised path |
| WriteContent.ShownPaths | src/handlers/writeContent.ts:66-67 | the items' paths with `\` turned into `/`, as `findIndex` compares them |
| WriteContent.HandleWriteContent | src/handlers/writeContent.ts:10-73 | the promise rejects with a `TypeError` exactly when the first entry the validation refuses is `null`; otherwise `InvalidParams` exactly when `items` is invalid, and else the records sorted by the position of their shown path, in input order when the shown paths are distinct |
| WriteContent.InputOrder | src/handlers/writeContent.ts:64-69 | items whose shown paths are distinct come back in input order, backslashes or not |
| StatItems.StatOne | src/handlers/statItems.ts:25-41 | an item pushes nothing exactly when its `stat` rejects with a nullish value; otherwise one record with the slash-normalised path, stats exactly on success and an error exactly on failure; ENOENT gives its own text; a resolution error's text is its `error.message`, `MCP error <code>: ` followed by the text it was raised with |
| StatItems.HandleStatItems | src/handlers/statItems.ts:10-47 | `InvalidParams` exactly when `paths` is invalid; otherwise the records pushed in any completion order, sorted by input position |
| StatItems.PushAll | src/handlers/statItems.ts:25-41 | pushing each item's record as its promise completes yields exactly the records collected in completion order |
| StatItems.SortedFacts | src/handlers/statItems.ts:25-44 | the sorted records are a permutation of the records in input order, one per path when no `stat` rejects with `null`, and exactly the input order for distinct paths without backslashes |
| StatItems.EveryItemPushes | src/handlers/statItems.ts:25-41 | without nullish rejections every item pushes exactly one record |
| StatItems.InputOrder | src/handlers/statItems.ts:43-44 | for distinct inputs without backslashes, whatever the completion order, the sorted records are the records in input order |
| BatchOrder.CollectPermutation | src/handlers/statItems.ts:25-41 | a different completion order pushes the same records in another order |
| BatchOrder.CollectPositions | src/handlers/statItems.ts:25-44 | records pushed in input order and keyed by input position are strictly increasing by key |
| Literal.Interleave | src/handlers/replaceContent.ts:61-68 | the empty pattern matches before every character and at the end, so the text grows by the replacement once per position |
| Literal.LiteralReplace | src/handlers/replaceContent.ts:59-70 | an escaped literal pattern counts `|s| + 1` matches when empty, and otherwise matches exactly when it occurs; no match leaves the text unchanged; each match changes the length by the difference of the two strings |
| Literal.CountZero | src/handlers/replaceContent.ts:64-70 | the count is zero exactly when the search text does not occur, and then the content is unchanged |
| Literal.ReplaceLength | src/handlers/replaceContent.ts:64-68 | each replaced occurrence changes the length by `|replace| - |search|` |
| Literal.PiecesFacts | src/handlers/replaceContent.ts:64-68 | the global replace cuts the text at the occurrences it replaces: joined with the search text the pieces give the original back, joined with the replacement they give the result, there is one piece more than matches, and no piece contains the search text |
| Literal.SelfReplacement | src/handlers/replaceContent.ts:64-73 | replacing a text by itself leaves the content as it was, whatever the count |
| ReplaceContent.ToOperation | src/handlers/replaceContent.ts:51-54 | an accepted entry's `search` and `replace`; `use_regex` and `ignore_case` hold exactly when the field is present and truthy, so they default to false |
| ReplaceContent.Operations | src/handlers/replaceContent.ts:16-18 | `operations` is accepted exactly when it is a non-empty array of objects with string `search` and `replace` |
| ReplaceContent.OpOutcome | src/handlers/replaceContent.ts:56-70 | a literal, case-sensitive operation without `$` in its replacement is the literal global replace |
| ReplaceContent.ApplyOperations | src/handlers/replaceContent.ts:49-71 | the inner loop gives the operations applied in order, each to the previous output, with the counts summed and the first throw kept |
| ReplaceContent.FailureSticks | src/handlers/replaceContent.ts:49-71 | once an operation throws, the later ones change nothing |
| ReplaceContent.ApplyAppend | src/handlers/replaceContent.ts:49-71 | applying two lists of operations one after the other is applying their concatenation: content threads through and counts add |
| ReplaceContent.Caught | src/handlers/replaceContent.ts:77-85 | the record for what was thrown keeps the file, count and flag and carries an error, for a resolution error its `error.message` (`MCP error <code>: ` and its text); `None` exactly for a nullish throw |
| ReplaceContent.FileRecord | src/handlers/replaceContent.ts:30-89 | the record names the slash-normalised path; non-files and ENOENT give their text; a resolution error's text is its `error.message`, `MCP error <code>: ` followed by the text it was raised with; `modified` means the content changed and was written; a positive count means the file was read; without a throw the count is the operations' total |
| ReplaceContent.ProcessFile | src/handlers/replaceContent.ts:31-89 | the outer loop's body produces exactly the record `FileRecord` describes |
| ReplaceContent.Records | src/handlers/replaceContent.ts:30-90 | one record per path, in input order, unless some file's `catch` block throws |
| ReplaceContent.ProcessAll | src/handlers/replaceContent.ts:30-90 | the per-file loop yields the records of every path in input order, or stops at the first file whose failure escapes the per-file handler |
| ReplaceContent.HandleReplaceContent | src/handlers/replaceContent.ts:9-106 | `paths` then `operations` are validated with their own messages, and the promise rejects with a `TypeError` exactly when `paths` is valid and the first `operations` entry refused is `null`; a throwing `catch` block becomes `InternalError` `Failed during replace_content:`; otherwise the records sorted by input position |
| ReplaceContent.InputOrder | src/handlers/replaceContent.ts:98-99 | distinct inputs without backslashes come back in input order |
| ReplaceContent.WriteOnlyWhenModified | src/handlers/replaceContent.ts:73-76 | when the operations leave the content unchanged, whatever `writeFile` would do has no effect on the record |
| ReplaceContent.CountedButUnmodified | src/handlers/replaceContent.ts:64-76 | replacing an occurring text by itself counts the occurrences but leaves the file unmodified |
| SearchFiles.RegexArg | src/handlers/searchFiles.ts:13-18 | `regex` is accepted exactly when it is a string that is not blank |
| SearchFiles.OrDefault | src/handlers/searchFiles.ts:12-14 | `??` falls back exactly when the field is absent or `null` |
| SearchFiles.LastSlash | src/handlers/searchFiles.ts:23 | the position of the last `/`, or none when there is none |
| SearchFiles.SplitFlags | src/handlers/searchFiles.ts:22-25 | flags are split off exactly when the string ends in `/` and flag letters; the pattern is then `slice(1, index)`, which drops the first character whatever it is; otherwise the whole string is the pattern |
| SearchFiles.OnlyLastSlash | src/handlers/searchFiles.ts:23 | only the last `/` can start the flag match |
| SearchFiles.GlobalMatchesOrdered | src/handlers/searchFiles.ts:67-80 | the matches of a global expression on a line lie in the line and do not overlap, each starting after the previous one ends |
| SearchFiles.ContextWindow | src/handlers/searchFiles.ts:69-71 | the context is the matched line with at most two lines on either side, in file order, cut short only at the file's ends |
| SearchFiles.LineResultsFacts | src/handlers/searchFiles.ts:72 | one record per match, naming the 1-based line and carrying its context |
| SearchFiles.LineResultsAppend | src/handlers/searchFiles.ts:67-80 | the records of consecutive runs of matches concatenate |
| SearchFiles.ScanLine | src/handlers/searchFiles.ts:61-80 | without the `g` flag a line yields at most one record |
| SearchFiles.GlobalLine | src/handlers/searchFiles.ts:65-80 | the `exec` loop of a global expression, starting from `lastIndex` 0 and stepping past empty matches, reports one result per global match of the line, in order |
| SearchFiles.ScanFiles | src/handlers/searchFiles.ts:55-88 | a file that cannot be read is skipped and changes nothing |
| SearchFiles.MatchLine | src/handlers/searchFiles.ts:62-80 | the `exec` loop of one line pushes exactly the records `ScanLine` describes and leaves `lastIndex` as it says |
| SearchFiles.HandleSearchFiles | src/handlers/searchFiles.ts:11-96 | the loops over files and lines give exactly the result `Search` describes |
| SearchFiles.SearchAll | src/handlers/searchFiles.ts:55-88 | the loop over the listed files gives the records of every file in turn |
| SearchFiles.SearchFile | src/handlers/searchFiles.ts:58-81 | the loop over a file's `\n`-separated lines gives the records of every line in turn |
| SearchFiles.LinesReported | src/handlers/searchFiles.ts:61-72 | every record names an existing line (1-based) and carries that line's context window |
| SearchFiles.NullEndsSearch | src/handlers/searchFiles.ts:82-93 | once a nullish rejection has ended the search, later files change nothing |
| SearchFiles.OnePerLine | src/handlers/searchFiles.ts:74-75 | without the `g` flag there are at most as many records as lines |
| SearchFiles.PathDefaultsToRoot | src/handlers/searchFiles.ts:12-43 | with no `path` argument the search starts at the root |
| Common.LeadingWhitespace | src/handlers/editFile.ts:50-54 | `getIndentation`: the longest prefix of the line made only of whitespace, and `''` for an empty line |
| Common.TrimStart | src/handlers/editFile.ts:185-191 | `trimStart()` leaves exactly what follows the leading whitespace |
| Common.BlankTrimsToEmpty | src/handlers/editFile.ts:187 | a blank line trims to the empty string |
| EditLines.ApplyIndentation | src/handlers/editFile.ts:57-59 | one line per `\n`-separated segment of the content, each the indentation followed by that segment |
| EditLines.UnindentedIsContent | src/handlers/editFile.ts:57-59 | with no indentation the lines join back into exactly the replacement text |
| EditLines.Occurrence | src/handlers/editFile.ts:174-207 | the position found is -1 or a block that fits inside the file |
| EditLines.OccurrenceFacts | src/handlers/editFile.ts:176-207 | a found block matches and has exactly `match_occurrence - 1` matching blocks before it since the start line; finding nothing means fewer than `match_occurrence` blocks match from there on |
| EditLines.FindOccurrence | src/handlers/editFile.ts:168-207 | the nested search loops stop at the position `Occurrence` describes |
| EditLines.MatchesAt | src/handlers/editFile.ts:180-197 | the inner loop keeps `isMatch` exactly when every search line matches the file line at the same offset |
| EditLines.CompareLine | src/handlers/editFile.ts:182-193 | one comparison trims the file line only when the search line is not blank and then compares it with the trimmed search line |
| EditLines.ApplyChange | src/handlers/editFile.ts:130-232 | one pass of the change loop's body performs the splice `Edit` describes and reports whether it succeeded |
| EditLines.InsertionPlacement | src/handlers/editFile.ts:138-158 | an insertion puts the indented lines at `min(start_line - 1, lines.length)` and keeps every other line, those below shifted down |
| EditLines.SearchPlacement | src/handlers/editFile.ts:161-225 | a search change that finds its block replaces (or deletes) exactly the lines of the `match_occurrence`-th matching block at or below the start line, keeping every other line |
| EditLines.NotFoundUnchanged | src/handlers/editFile.ts:209-228 | a search change that finds no block (fewer than `match_occurrence` matching blocks, by `OccurrenceFacts`) leaves the lines unchanged |
| EditLines.RegexSkipped | src/handlers/editFile.ts:162-165 | a change with `use_regex` and a search pattern is skipped and changes nothing |
| EditLines.NothingToDo | src/handlers/editFile.ts:229-232 | a change with neither a search pattern nor replacement text changes nothing |
| EditFile.BoolField | src/handlers/editFile.ts:17-19 | a boolean field with a default: absent gives the default, a non-boolean is refused |
| EditFile.ParseChange | src/handlers/editFile.ts:12-23 | a change is accepted exactly when it satisfies the schema field by field (`ChangeSchema`): a non-empty path, `start_line` and `match_occurrence` integers at least 1, optional strings and booleans of the right type, and a search pattern or replacement text; every field of the result is the given value, and absent flags take their defaults |
| EditFile.ParseChanges | src/handlers/editFile.ts:26 | the array is accepted exactly when every element is a valid change, and then yields them in order |
| EditFile.ParseArgs | src/handlers/editFile.ts:25-29 | the arguments are accepted exactly when they are an object with a non-empty `changes` array whose every entry satisfies the change schema and with boolean-or-absent `dry_run` and `output_diff`; the changes are the parsed entries in order, the flags are the given values, and `dry_run` defaults to false and `output_diff` to true |
| EditFile.Paths | src/handlers/editFile.ts:80-86 | the path of each change, in order |
| EditFile.DedupFacts | src/handlers/editFile.ts:80-88 | the keys of `changesByFile` are the distinct paths, each once, ordered by where they first appear |
| EditFile.GroupFacts | src/handlers/editFile.ts:80-86 | each group holds only changes for its path, and is non-empty exactly for the paths that occur |
| EditFile.GroupChanges | src/handlers/editFile.ts:80-86 | the `reduce` throws exactly when a path names an inherited property of `Object.prototype`; otherwise its keys are the distinct paths in first-appearance order and each group holds that path's changes in input order |
| EditFile.IndexKeys | src/handlers/editFile.ts:88 | array-index keys, which `for ... in` visits first |
| EditFile.NamedKeys | src/handlers/editFile.ts:88 | the other keys, which `for ... in` visits in insertion order |
| EditFile.ForInOrderFacts | src/handlers/editFile.ts:88 | the loop visits every key exactly once, array-index keys first in numeric order; without such keys it is insertion order |
| EditFile.ApplyChanges | src/handlers/editFile.ts:109-242 | the loop over a file's sorted changes leaves the lines, content and flag `Run` describes |
| EditFile.FileOutcome | src/handlers/editFile.ts:88-287 | a file's record names its path; a resolution error gives its `error.message` and ENOENT on the read gives `MCP error -32600: File not found: <path>`, both formatted by the `McpError` constructor; the handler rejects only when a nullish write rejection reaches the `catch` block of a run that is not a dry run |
| EditFile.ProcessFile | src/handlers/editFile.ts:95-287 | the body of the loop over files gives exactly the outcome `FileOutcome` describes |
| EditFile.Processed | src/handlers/editFile.ts:88-290 | the handler either replies with records or rejects |
| EditFile.HandleEditFile | src/handlers/editFile.ts:66-291 | the handler gives exactly the outcome `EditFileSpec` describes |
| EditFile.ProcessFiles | src/handlers/editFile.ts:88-288 | the loop over files in `for ... in` order gives the records `Processed` describes |
| EditFile.ProcessedNext | src/handlers/editFile.ts:88-288 | one more file extends the reply by that file's outcome, and a crash in it or before it ends the reply |
| EditFile.CrashSticks | src/handlers/editFile.ts:274-287 | once a file has made the handler reject, later files change nothing |
| EditFile.ChangeOrder | src/handlers/editFile.ts:113-115 | within a file the changes run in descending start line, and changes with the same start line keep their input order |
| EditFile.ContentIsJoinedLines | src/handlers/editFile.ts:234-240 | the content always is the lines joined by `\n` |
| EditFile.AppliedIffSomeStep | src/handlers/editFile.ts:110-240 | a file counts as changed exactly when some change succeeded; otherwise its content and lines are those read |
| EditFile.StatusMeaning | src/handlers/editFile.ts:245-271 | a readable file is `success` exactly when some change succeeded and the write went through, `skipped` exactly when none did, and is written only when successful and not a dry run, with the final content |
| EditFile.ProcessedPaths | src/handlers/editFile.ts:88-287 | every record of the reply names one of the grouped paths, in loop order |
| EditFile.OneResultPerPath | src/handlers/editFile.ts:80-290 | exactly one record per distinct path of the changes |
| EditFile.ResultPaths | src/handlers/editFile.ts:286 | the path of each record, in order |
| Common.Code | src/index.ts:88-89 | the error kinds carry their JSON-RPC 2.0 codes, all in the reserved server range -32768 to -32000 |
| Common.CodeInjective | src/index.ts:88-89 | two errors have the same code exactly when they are of the same kind |
| Common.ErrorMessage | src/handlers/deleteItems.ts:37-38 | the `error.message` of a thrown `McpError`: `MCP error `, the code as `String(code)` prints it, `: `, then the text the error was raised with |
| Common.CodeText | src/handlers/deleteItems.ts:38 | the printed code of each kind is six characters, `-32600` to `-32603`, the decimal rendering of its JSON-RPC code |
| Common.EveryObject | src/handlers/writeContent.ts:12 | `every` over the entries of an object array: `Some(true)` exactly when every entry is accepted, and `None` (a `TypeError`) exactly when the first refused entry is `null` |
| Common.ErrorMessageInjective | src/handlers/editFile.ts:277-278 | two errors give the same `error.message` exactly when they are the same kind raised with the same text |
| Common.Field | src/handlers/deleteItems.ts:10 | `args?.key` is present exactly when the arguments are an object holding the key, and is then its value |
| Common.Strings | src/handlers/deleteItems.ts:11 | the strings of an all-string array, element by element |
| Common.NonEmptyStringArray | src/handlers/deleteItems.ts:11-13 | the `paths` check accepts exactly a non-empty array whose every element is a string, and yields those strings in order |
| Common.HasCode | src/handlers/deleteItems.ts:33 | `error.code === c` holds exactly for an errno error with that code, and reading it throws exactly for a `null` rejection |
| Common.DedupElements | src/handlers/readPdf.ts:84 | `[...new Set(xs)]` keeps every element of `xs`, adds none, and holds each only once |
| Common.NormalizeSlashes | src/handlers/deleteItems.ts:24 | the output path replaces every backslash by a forward slash, changes nothing else, and leaves no backslash |
| Common.NormalizeSlashesIdentity | src/handlers/deleteItems.ts:24 | a path without backslashes is shown unchanged |
| Common.Split | src/handlers/readPdf.ts:16 | `split` on one character gives at least one field and no field holds the separator |
| Common.SplitNoSeparator | src/handlers/readPdf.ts:18-28 | a string without the separator splits into itself alone |
| Common.SplitAround | src/handlers/readPdf.ts:16 | splitting at a separator splits the text on each side of it independently |
| Common.SplitJoin | src/handlers/editFile.ts:234-240 | `join` then `split` gives back the parts, when no part holds the separator |
| Common.JoinSplit | src/handlers/editFile.ts:234-240 | `split` then `join` gives back the string, so re-splitting the joined lines never changes the content |
| Common.NatToString | src/handlers/readPdfPageText.ts:146 | `String(n)` of a natural number: one or more decimal digits, with no leading zero |
| Common.Digit | src/handlers/readPdfPageText.ts:146 | a decimal digit is one of the characters `0` to `9` |
| PageRanges.DigitRun | src/handlers/readPdf.ts:20-21 | the longest prefix of decimal digits, the part `parseInt` reads |
| PageRanges.ParseIntDigits | src/handlers/readPdf.ts:20-21 | `parseInt` of a digit string is its decimal value, and `NaN` on the empty string |
| PageRanges.ParseIntPrinted | src/handlers/readPdf.ts:20-21 | `parseInt(String(n), 10)` gives back `n` |
| PageRanges.DigitsValuePrinted | src/handlers/readPdf.ts:20-21 | the decimal rendering of `n` has the value `n` |
| PageRanges.SplitAtFirst | src/handlers/readPdf.ts:19 | a string splits at its first separator: the text before it, then the fields of the rest |
| PageRanges.SeparatorSplits | src/handlers/readPdf.ts:18-19 | a part holding `-` splits into at least a start and an end field |
| PageRanges.Parts | src/handlers/readPdf.ts:16-17 | one part per comma-separated field of the range string, each with the range it denotes or none |
| PageRanges.Interval | src/handlers/readPdf.ts:23 | the integers from the start up to the end, each once and in increasing order |
| PageRanges.IntervalStep | src/handlers/readPdf.ts:23 | one more iteration of the inner loop adds exactly the next integer |
| PageRanges.FirstInvalidNone | src/handlers/readPdf.ts:17-30 | nothing is thrown exactly when every part is a valid page or range |
| PageRanges.FirstInvalidSticks | src/handlers/readPdf.ts:17-30 | once a part has thrown, later parts do not change the message |
| PageRanges.DedupAppend | src/handlers/readPdf.ts:15 | `Set.add` appends a new element at the end and ignores one already present |
| PageRanges.AddInterval | src/handlers/readPdf.ts:23 | the inner loop leaves the set holding the earlier pages followed by the new pages of the range, in insertion order |
| PageRanges.AddPart | src/handlers/readPdf.ts:18-29 | one iteration of the loop over parts throws exactly for an invalid part and otherwise adds that part's pages to the set |
| PageRanges.AddPage | src/handlers/readPdf.ts:28 | adding one page to the insertion-ordered set appends it exactly when it is new |
| PageRanges.ParsePageRanges | src/handlers/readPdf.ts:14-32 | `parsePageRanges` gives the result `PageRanges` describes |
| PageRanges.SpanCovers | src/handlers/readPdf.ts:18-29 | a part adds a page exactly when its range holds the page |
| PageRanges.AddedCovers | src/handlers/readPdf.ts:17-30 | a page is added exactly when some part's range holds it |
| PageRanges.CountAtMostOne | src/handlers/readPdf.ts:31 | a duplicate-free sequence holds each value at most once |
| PageRanges.SortedDistinctAscending | src/handlers/readPdf.ts:31 | sorting the distinct pages numerically gives a strictly ascending list |
| PageRanges.PageRangesFacts | src/handlers/readPdf.ts:14-32 | the range string is rejected exactly when some part is invalid; otherwise the pages are strictly ascending and are exactly those some part's range holds |
| PageRanges.FirstInvalidIsFirst | src/handlers/readPdf.ts:22-28 | the message names the first invalid part |
| PageRanges.DigitRange | src/handlers/readPdf.ts:18-23 | `a-b` with digit strings `a <= b` denotes exactly the pages `a` to `b` |
| PageRanges.ThirdFieldIgnored | src/handlers/readPdf.ts:19 | `a-b-c` denotes the same range as `a-b`: the destructuring reads only two fields |
| PageRanges.EmptyEndRejected | src/handlers/readPdf.ts:20-24 | a range with an empty end such as `5-` is rejected |
| PageRanges.EmptyStartRejected | src/handlers/readPdf.ts:20-24 | a range with an empty start such as `-5` is rejected |
| PageRanges.TargetPagesFacts | src/handlers/readPdf.ts:79-93 | accepted target pages are non-empty, strictly ascending and all at least 1; an array is accepted exactly when it is non-empty and all positive, and then gives exactly its numbers |
| PageRanges.ListRequested | src/handlers/readPdf.ts:83 | an explicit page list is de-duplicated and sorted into a strictly ascending list holding exactly its numbers |
| PdfShared.Numbers | src/handlers/readPdf.ts:42 | the numbers of a numeric array, element by element |
| PdfShared.SpecOf | src/handlers/readPdf.ts:41-44 | a valid `pages` argument is a non-empty list of positive numbers when it is an array and the range string otherwise |
| PdfShared.SourceOf | src/handlers/readPdf.ts:45-47 | the refinement passes exactly when one of `path` and `url` is a non-empty string and the other is not, and the source is that field |
| PdfShared.Targets | src/handlers/readPdf.ts:79-93 | the page normalisation fails with `InvalidParams` and `Invalid page specification: ` plus the message exactly when the target pages are invalid |
| PdfShared.FoundPages | src/handlers/readPdf.ts:183 | the page of each entry, in order |
| PdfShared.TextsOf | src/handlers/readPdf.ts:190 | the text of each entry, in order |
| PdfShared.MissingFacts | src/handlers/readPdf.ts:184 | a page is missing exactly when it is a target without an entry; ascending targets give ascending missing pages |
| PdfShared.NoneMissing | src/handlers/readPdf.ts:184 | nothing is missing when every target has an entry |
| PdfShared.FailureMessage | src/handlers/readPdf.ts:204-212 | a missing local file reports where its path resolved; an `Error` gives its message as the reason; the block throws when it reads `.code` of a `null` rejection of a local read |
| ReadPdf.ParseRequest | src/handlers/readPdf.ts:35-65 | accepted arguments hold only the schema's keys, exactly one of `path` and `url`, never both `pages` and `include_full_text`, and the options with their defaults (false, true, true); missing both sources is refused |
| ReadPdf.Exceeding | src/handlers/readPdf.ts:152 | the selected pages beyond the page count, and none when every page is within it |
| ReadPdf.ExtractPageTexts | src/handlers/readPdf.ts:159-178 | the extraction loop gives exactly the entries `Extracted` describes |
| ReadPdf.Caught | src/handlers/readPdf.ts:201-222 | a password or invalid-PDF library error is `InvalidRequest` with its message; filesystem failures are `InternalError`; the block throws only for a `null` rejection of a local read |
| ReadPdf.HandleReadPdf | src/handlers/readPdf.ts:56-223 | the handler gives exactly the reply `ReadPdfSpec` describes |
| ReadPdf.Assemble | src/handlers/readPdf.ts:124-199 | the output filled field by field (metadata, page count, texts, the no-information message) is the reply the handler's specification gives |
| ReadPdf.ExceedingPagesRaise | src/handlers/readPdf.ts:151-155 | the handler rejects with `InvalidParams` exactly when a selected page exceeds the page count, which never happens without explicit pages |
| ReadPdf.ExtractedOrdered | src/handlers/readPdf.ts:159-178 | every entry is for a selected page, and ascending pages give entries in page order |
| ReadPdf.ExplicitEntries | src/handlers/readPdf.ts:161-175 | with explicit pages every page gets exactly one entry, in order, holding its text or its error |
| ReadPdf.ExplicitTexts | src/handlers/readPdf.ts:177-187 | for ascending explicit pages the sort changes nothing and no page is missing |
| ReadPdf.ExplicitPagesReported | src/handlers/readPdf.ts:181-187 | explicit pages within the document give one `page_texts` entry per target, in order, no `missing_pages` and no `full_text` |
| ReadPdf.FullTextEntries | src/handlers/readPdf.ts:161-175 | in full-text mode exactly the readable pages get an entry, holding the page's items joined |
| ReadPdf.FullTextJoinsReadablePages | src/handlers/readPdf.ts:142-190 | `full_text` joins with a blank line the texts of exactly the readable pages of the document, in page order |
| ReadPdf.FieldsFollowOptions | src/handlers/readPdf.ts:128-197 | each output field is present exactly when its option asks for it, and the `message` object comes back exactly when nothing is asked for |
| ReadPdfPageText.ParseRequest | src/handlers/readPdfPageText.ts:37-62 | accepted arguments hold only the schema's keys, a valid `pages` argument and exactly one of `path` and `url`; missing `pages` or both sources is refused |
| ReadPdfPageText.CollectTexts | src/handlers/readPdfPageText.ts:104-132 | the callbacks push exactly the entries `Collected` describes |
| ReadPdfPageText.CollectedFacts | src/handlers/readPdfPageText.ts:109-126 | a page has an entry exactly when it is a target some callback renders, and each entry holds the text of such a callback |
| ReadPdfPageText.Caught | src/handlers/readPdfPageText.ts:157-171 | every failure that reaches the block is `InternalError`, except a `null` rejection of a local read, which throws |
| ReadPdfPageText.HandleReadPdfPageText | src/handlers/readPdfPageText.ts:53-172 | the handler gives exactly the reply `ReadPdfPageTextSpec` describes |
| ReadPdfPageText.SortedPages | src/handlers/readPdfPageText.ts:135 | sorting keeps the set of pages with entries |
| ReadPdfPageText.SortedFound | src/handlers/readPdfPageText.ts:135-138 | the pages of the sorted entries are exactly the target pages some callback renders |
| ReadPdfPageText.MissingUnrendered | src/handlers/readPdfPageText.ts:138-139 | the missing pages are exactly the target pages no callback renders, in ascending order |
| ReadPdfPageText.RepliedSorted | src/handlers/readPdfPageText.ts:132-155 | once some target is rendered the handler replies with the collected entries, sorted by page and nothing added or lost |
| ReadPdfPageText.RepliedMissing | src/handlers/readPdfPageText.ts:138-155 | `missingPages` is set exactly when some target is not rendered, and then lists exactly those pages in ascending order |
| ReadPdfPageText.NothingRenderedRaises | src/handlers/readPdfPageText.ts:141-149 | when no target page is rendered the handler raises `InvalidRequest` naming the targets and the page count |
| Dispatcher.ListedNames | src/index.ts:55-71 | `ListTools` answers with one name per tool, in the list's order |
| Dispatcher.Lookup | src/index.ts:75-87 | a name that is found is the name of the tool it selects |
| Dispatcher.ListedToolsDistinct | src/index.ts:29-71 | twelve tools are listed, each tool once, with pairwise distinct names |
| Dispatcher.DispatchIffListed | src/index.ts:73-91 | a call is dispatched exactly when its name is listed, and then returns the handler's result for that tool; any other name raises `MethodNotFound` (code -32601) with `Unknown tool: ` and the name |
| EditFile.SplitKeys | src/handlers/editFile.ts:88 | the index keys and the other keys together are all the keys, none added or lost |
| EditFile.NoIndexKeys | src/handlers/editFile.ts:88 | with no array-index key, `for ... in` visits the keys in insertion order |

## Left out

- Filesystem calls (`rm`, `chmod`, `chown`, `mkdir`, `rename`, `cp`, `copyFile`, `readFile`, `writeFile`, `appendFile`, `stat`, `readdir`) are outcomes the handlers take as parameters; their effect on a real file system is not modelled.
- `Promise.allSettled` concurrency: promises are modelled as running one after another, except that `stat_items` takes the completion order as a parameter (any permutation).
- The regular-expression engine: regex mode and `ignore_case` of `replace_content`, replacements containing `$`, and the matcher of `search_files` come from an uninterpreted `engine`/`exec` parameter that keeps only the guarantees every `RegExp` gives. `edit_file` skips regex changes exactly as the source does.
- `glob` file selection in `search_files` and the `detect-indent` result in `edit_file` are parameters.
- The PDF libraries (pdfjs-dist, pdf-parse) and `fetch`: a document is its page count, its metadata and the text items or error of each page; `pagerender` callbacks are a parameter listing the page each call reports (`pageData.page`) and its content.
- Zod: the constraints of each schema are modelled, the wording of its issue list is the `zodDetails` parameter, and whether a string is a URL is the `isUrl` parameter.
- JSON numbers are integers. Fractional numbers, `NaN` and `parseInt` precision loss on very long digit strings are not modelled, nor is the time or memory a huge page range takes.
- The branch throwing `Missing 'path' or 'url'.` in both PDF handlers cannot be reached once the schema refinement passed; it is not modelled.
- The handler attached with `loadingTask.promise.catch` in `read_pdf` (src/handlers/readPdf.ts:115-120) rethrows into a promise nobody awaits; its unhandled rejection is not modelled.
- `String(error)` of a `null` or `undefined` rejection is rendered as `null`.
- src/handlers/listFiles.ts (glob and `readdir` plumbing with trailing-slash display) is not part of this model; `list_files` appears only as a name in the dispatch table.
- src/handlers/readPdfAllText.ts, src/handlers/getPdfMetadata.ts and src/handlers/getPdfPageCount.ts are thin library wrappers and are not part of this model; their path-or-url refinement is the one `PdfShared.SourceOf` models.
- src/handlers/index.ts is a static list without behaviour and is not part of this model.
- Server and transport setup, `main` and console logging are not modelled, nor are the `atime`, `mtime` and `ctime` timestamps `formatStats` renders with `toISOString`.
- The MCP `McpError` class is modelled by its kind, the text it was raised with and the `error.message` its constructor formats from them (`Common.ErrorMessage`); the `data` it may carry is left out.
- The `diff` field of an `edit_file` record (the `createPatch` output, src/handlers/editFile.ts:250-257) is not modelled; records carry path, status and message only.
- Interleave: counts positions in Unicode characters, while JavaScript strings are UTF-16 code units; for text outside the Basic Multilingual Plane the source inserts the replacement between the two halves of a surrogate pair as well (`😀` with an empty pattern gives 3 matches in the source and 2 here).
- LiteralReplace: its match count and result for the empty pattern are in Unicode characters, not UTF-16 code units, for the same reason as Interleave; for non-empty patterns the two agree.
- HandleReplaceContent: the reply's constant `message` field (`Replace content operations completed on specified paths.`, src/handlers/replaceContent.ts:104) is not carried; the model returns the sorted records only.

## Findings

| source | as written | input that shows it | evidently intended | confidence | as-written member | corrected member |
|---|---|---|---|---|---|---|
| src/utils/pathUtils.ts:32 | the resolved path is accepted when it starts with the root string | root `/w/proj` and input `../proj2/x` resolve to `/w/proj2/x`, which is accepted although it is outside the root | accept only the root itself or paths that start with the root followed by `/` | high, not executed | PathUtils.SiblingPrefixAccepted | PathUtils.ResolvePathContained |
