/**
 * What the two PDF tools (readPdf.ts and readPdfPageText.ts) have in
 * common: the `path`/`url` choice, the field checks of their schemas,
 * the `pages` argument, page texts and missing pages, and the message
 * their `catch` blocks build.
 */
module PdfShared {
  import opened Common
  import opened BatchOrder
  import opened PageRanges

  /** Where the PDF comes from: exactly one of `path` and `url`. */
  datatype Source = FromPath(path: string) | FromUrl(url: string)

  /** `sourceDescription`: the path or URL in single quotes. */
  function Description(source: Source): string
  {
    match source
    case FromPath(p) => "'" + p + "'"
    case FromUrl(u) => "'" + u + "'"
  }

  // ---------------------------------------------------------------------
  // Schema fields
  // ---------------------------------------------------------------------

  /** `z.string().min(1).optional()`. */
  predicate PathFieldValid(v: Option<Json>)
  {
    v.None? || (v.value.JStr? && |v.value.s| >= 1)
  }

  /** `z.string().url().optional()`; whether a string parses as a URL is the `isUrl` input. */
  predicate UrlFieldValid(v: Option<Json>, isUrl: string -> bool)
  {
    v.None? || (v.value.JStr? && isUrl(v.value.s))
  }

  /** `z.boolean().optional()`. */
  predicate BoolFieldValid(v: Option<Json>)
  {
    v.None? || v.value.JBool?
  }

  /** The value of a valid boolean field, or its `.default(...)`. */
  function BoolOr(v: Option<Json>, default: bool): bool
  {
    if v.Some? && v.value.JBool? then v.value.b else default
  }

  /** `/^[0-9,\-]+$/` once the string is known to be non-empty. */
  predicate PageAlphabet(s: string)
  {
    forall k :: 0 <= k < |s| ==> IsDigit(s[k]) || s[k] == ',' || s[k] == '-'
  }

  predicate PositiveNumber(j: Json)
  {
    j.JNum? && j.n > 0
  }

  /**
   * The `pages` union: a non-empty array of positive integers, or a
   * non-empty string of digits, commas and hyphens.
   */
  predicate PagesValid(v: Json)
  {
    || (v.JArr? && |v.items| >= 1 && forall k :: 0 <= k < |v.items| ==> PositiveNumber(v.items[k]))
    || (v.JStr? && |v.s| >= 1 && PageAlphabet(v.s))
  }

  function Numbers(items: seq<Json>): (r: seq<int>)
    requires forall k :: 0 <= k < |items| ==> items[k].JNum?
    ensures |r| == |items|
    ensures forall k :: 0 <= k < |items| ==> items[k] == JNum(r[k])
  {
    if items == [] then [] else [items[0].n] + Numbers(items[1..])
  }

  /** The validated `pages` value as a page specification. */
  function SpecOf(v: Json): (spec: PageSpec)
    requires PagesValid(v)
    ensures spec.PageList? <==> v.JArr?
    ensures spec.PageString? ==> spec == PageString(v.s)
    ensures spec.PageList? ==> |spec.numbers| >= 1 && forall p :: p in spec.numbers ==> p >= 1
  {
    if v.JArr? then
      var numbers := Numbers(v.items);
      assert forall p :: p in numbers ==> exists k :: 0 <= k < |numbers| && numbers[k] == p && PositiveNumber(v.items[k]);
      PageList(numbers)
    else PageString(v.s)
  }

  /**
   * The refinement `(path && !url) || (!path && url)`, applied to fields
   * that are absent or strings: the source when exactly one is a
   * non-empty string.
   */
  function SourceOf(path: Option<Json>, url: Option<Json>): (r: Option<Source>)
    requires path.None? || path.value.JStr?
    requires url.None? || url.value.JStr?
    ensures r.Some? <==> (path.Some? && Truthy(path.value)) != (url.Some? && Truthy(url.value))
    ensures r.Some? && r.value.FromPath? ==> path == Some(JStr(r.value.path))
    ensures r.Some? && r.value.FromUrl? ==> url == Some(JStr(r.value.url))
  {
    var p := path.Some? && Truthy(path.value);
    var u := url.Some? && Truthy(url.value);
    if p && !u then Some(FromPath(path.value.s))
    else if !p && u then Some(FromUrl(url.value.s))
    else None
  }

  /**
   * The `try` around the page normalisation: the target pages, or
   * `InvalidParams` with `Invalid page specification: ` and the message.
   */
  function Targets(spec: PageSpec): (r: Result<seq<int>>)
    ensures r.Err? <==> TargetPages(spec).Invalid?
    ensures r.Err? ==> r.error == McpError(InvalidParams, "Invalid page specification: " + TargetPages(spec).message)
    ensures r.Ok? ==> r.value == TargetPages(spec).pages
  {
    match TargetPages(spec)
    case Invalid(message) => Err(McpError(InvalidParams, "Invalid page specification: " + message))
    case Pages(pages) => Ok(pages)
  }

  // ---------------------------------------------------------------------
  // Page texts
  // ---------------------------------------------------------------------

  /** What the PDF library yields for one page: its text items, or the message of the error it throws. */
  datatype PageContent = Items(strs: seq<string>) | PageFailed(message: string)

  /** An entry `{ page, text }` of the extracted texts. */
  datatype PageText = PageText(page: int, text: string)

  function PageOf(t: PageText): int { t.page }

  /** `texts.map(t => t.page)`. */
  function FoundPages(texts: seq<PageText>): (r: seq<int>)
    ensures |r| == |texts|
    ensures forall k :: 0 <= k < |texts| ==> r[k] == texts[k].page
  {
    seq(|texts|, k requires 0 <= k < |texts| => texts[k].page)
  }

  /** `texts.map(t => t.text)`. */
  function TextsOf(texts: seq<PageText>): (r: seq<string>)
    ensures |r| == |texts|
    ensures forall k :: 0 <= k < |texts| ==> r[k] == texts[k].text
  {
    seq(|texts|, k requires 0 <= k < |texts| => texts[k].text)
  }

  /** `targets.filter(p => !found.includes(p))`. */
  function Missing(targets: seq<int>, found: seq<int>): seq<int>
    decreases |targets|
  {
    if targets == [] then []
    else
      var prev := Missing(targets[..|targets| - 1], found);
      var last := targets[|targets| - 1];
      if last in found then prev else prev + [last]
  }

  /**
   * The missing pages are exactly the targets without an entry, in the
   * targets' order.
   */
  lemma {:induction false} MissingFacts(targets: seq<int>, found: seq<int>)
    ensures forall p :: p in Missing(targets, found) <==> p in targets && p !in found
    ensures StrictlyAscending(targets) ==> StrictlyAscending(Missing(targets, found))
    decreases |targets|
  {
    if targets != [] {
      var init, last := targets[..|targets| - 1], targets[|targets| - 1];
      MissingFacts(init, found);
      assert targets == init + [last];
      if StrictlyAscending(targets) {
        assert StrictlyAscending(init);
        BelowLast(init, last);
        AppendAscending(Missing(init, found), last);
      }
    }
  }

  /** In an ascending list every earlier element is below the last one. */
  lemma BelowLast(init: seq<int>, last: int)
    requires StrictlyAscending(init + [last])
    ensures forall x :: x in init ==> x < last
  {
    var s := init + [last];
    forall x | x in init
      ensures x < last
    {
      var i :| 0 <= i < |init| && init[i] == x;
      assert s[i] == x && s[|init|] == last;
    }
  }

  /** Appending an element above all others keeps a list ascending. */
  lemma AppendAscending(m: seq<int>, last: int)
    requires StrictlyAscending(m)
    ensures (forall x :: x in m ==> x < last) ==> StrictlyAscending(m + [last])
  {
    if forall x :: x in m ==> x < last {
      var e := m + [last];
      forall i, j | 0 <= i < j < |e|
        ensures e[i] < e[j]
      {
        if j == |m| {
          assert e[i] == m[i] && m[i] in m;
        } else {
          assert e[i] == m[i] && e[j] == m[j];
        }
      }
    }
  }

  /** Nothing is missing when every target has an entry. */
  lemma {:induction false} NoneMissing(targets: seq<int>, found: seq<int>)
    requires forall p :: p in targets ==> p in found
    ensures Missing(targets, found) == []
    decreases |targets|
  {
    if targets != [] {
      NoneMissing(targets[..|targets| - 1], found);
    }
  }

  // ---------------------------------------------------------------------
  // The catch blocks
  // ---------------------------------------------------------------------

  /**
   * What reaches a `catch` block without being an `McpError`: a rejection
   * of `fs.readFile`, or an `Error` of the PDF library with its `name`.
   */
  datatype Failure = FileFailure(err: FsError) | LibraryFailure(name: string, message: string)

  /**
   * The message a `catch` block builds from `base` (`Failed to ... from
   * <source>.`): for a local file that does not exist, where the path
   * resolved to; for an `Error`, its message as the reason; for anything
   * else, `Unknown error: `. `None` when `error.code` is read from a `null`
   * rejection of a local read, which throws a `TypeError` out of the block.
   */
  function FailureMessage(base: string, source: Source, safePath: string, f: Failure): (r: Option<string>)
    ensures r.None? <==> source.FromPath? && f == FileFailure(Nullish)
    ensures source.FromPath? && f.FileFailure? && f.err.Errno? && f.err.code == "ENOENT" ==>
      r == Some("File not found at '" + source.path + "'. Resolved to: " + safePath)
    ensures f.LibraryFailure? ==> r == Some(base + " Reason: " + f.message)
  {
    match f
    case FileFailure(Nullish) =>
      if source.FromPath? then None else Some(base + " Unknown error: null")
    case FileFailure(Errno(code, message)) =>
      if source.FromPath? && code == "ENOENT" then Some("File not found at '" + source.path + "'. Resolved to: " + safePath)
      else Some(base + " Reason: " + message)
    case FileFailure(NoCode(message)) => Some(base + " Reason: " + message)
    case LibraryFailure(_, message) => Some(base + " Reason: " + message)
  }
}
