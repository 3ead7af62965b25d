/**
 * The `read_pdf_page_text` tool (readPdfPageText.ts): collects the text
 * of the requested pages from the `pagerender` callbacks of the PDF
 * parser, sorts it by page, and reports the requested pages it did not see.
 */
module ReadPdfPageText {
  import opened Common
  import opened PathUtils
  import opened BatchOrder
  import opened PageRanges
  import opened PdfShared

  /** The validated arguments. */
  datatype Request = Request(source: Source, pages: PageSpec)

  /** The keys the strict schema accepts. */
  const Keys: set<string> := {"path", "url", "pages"}

  /** What `fetch(url)` and reading its body settle to. */
  datatype Fetched = Response(ok: bool, status: nat, statusText: string, body: string) | FetchFailed(name: string, message: string)

  /**
   * One call of the `pagerender` callback: the page number it reads from
   * its argument (`None` when that is not a number), and what
   * `getTextContent` yields.
   */
  datatype Render = Render(page: Option<int>, content: PageContent)

  /** What `pdf(dataBuffer, options)` does: the callbacks it makes, in order, or the `Error` it rejects with. */
  datatype Parsed = Rendered(calls: seq<Render>) | ParseFailed(name: string, message: string)

  /** How the handler settles: `{ pages, missingPages }`, an `McpError`, or a `TypeError`. */
  datatype Reply = Replied(pages: seq<PageText>, missingPages: Option<seq<int>>) | Raised(error: McpError) | Crashed

  // ---------------------------------------------------------------------
  // Arguments
  // ---------------------------------------------------------------------

  /**
   * `ReadPdfPageTextArgsSchema.parse(args)`: a strict object with a valid
   * `pages`, valid optional `path` and `url`, and exactly one of the two.
   */
  function ParseRequest(args: Json, isUrl: string -> bool, zodDetails: string): (r: Result<Request>)
    ensures r.Err? ==> r.error == McpError(InvalidParams, "Invalid arguments: " + zodDetails)
    ensures r.Ok? ==> args.JObj? && args.fields.Keys <= Keys
    ensures r.Ok? ==> Field(args, "pages").Some? && PagesValid(Field(args, "pages").value)
    ensures r.Ok? ==> r.value.pages == SpecOf(Field(args, "pages").value)
    ensures r.Ok? && r.value.source.FromPath? ==>
      Field(args, "path") == Some(JStr(r.value.source.path)) && !(Field(args, "url").Some? && Truthy(Field(args, "url").value))
    ensures r.Ok? && r.value.source.FromUrl? ==> Field(args, "url") == Some(JStr(r.value.source.url)) && Field(args, "path").None?
    ensures Field(args, "pages").None? ==> r.Err?
    ensures Field(args, "path").None? && Field(args, "url").None? ==> r.Err?
  {
    var invalid := Err(McpError(InvalidParams, "Invalid arguments: " + zodDetails));
    if !args.JObj? then invalid
    else
      var path, url, pages := Field(args, "path"), Field(args, "url"), Field(args, "pages");
      if !(args.fields.Keys <= Keys) || !PathFieldValid(path) || !UrlFieldValid(url, isUrl)
        || pages.None? || !PagesValid(pages.value)
      then invalid
      else
        var source := SourceOf(path, url);
        if source.None? then invalid else Ok(Request(source.value, SpecOf(pages.value)))
  }

  // ---------------------------------------------------------------------
  // Collecting page texts
  // ---------------------------------------------------------------------

  /** The text of a rendered page: its items joined with `' '`, or `Error rendering page: ` and the message. */
  function RenderedText(c: PageContent): string
  {
    match c
    case Items(strs) => Join(strs, " ")
    case PageFailed(message) => "Error rendering page: " + message
  }

  /** The entries the callbacks push: one per call whose page is a target. */
  function Collected(targets: seq<int>, calls: seq<Render>): seq<PageText>
    decreases |calls|
  {
    if calls == [] then []
    else
      var prev := Collected(targets, calls[..|calls| - 1]);
      var c := calls[|calls| - 1];
      if c.page.Some? && c.page.value in targets then prev + [PageText(c.page.value, RenderedText(c.content))] else prev
  }

  /** The `pagerender` callback, run once for each call the parser makes. */
  method CollectTexts(targets: seq<int>, calls: seq<Render>) returns (extractedTexts: seq<PageText>)
    ensures extractedTexts == Collected(targets, calls)
  {
    extractedTexts := [];
    for k := 0 to |calls|
      invariant extractedTexts == Collected(targets, calls[..k])
    {
      assert calls[..k + 1][..k] == calls[..k];
      var currentPage := calls[k].page;
      if currentPage.Some? && currentPage.value in targets {
        extractedTexts := extractedTexts + [PageText(currentPage.value, RenderedText(calls[k].content))];
      }
    }
    assert calls[..|calls|] == calls;
  }

  /** Some call renders page `p`. */
  predicate RenderedPage(calls: seq<Render>, p: int)
  {
    exists k :: 0 <= k < |calls| && calls[k].page == Some(p)
  }

  /**
   * The entries are exactly the calls for target pages: each entry is a
   * target page with the text of a call for it, and every target page
   * some call renders has an entry.
   */
  lemma {:induction false} CollectedFacts(targets: seq<int>, calls: seq<Render>, p: int)
    ensures p in FoundPages(Collected(targets, calls)) <==> p in targets && RenderedPage(calls, p)
    ensures forall e :: e in Collected(targets, calls) ==>
      e.page in targets && exists k :: 0 <= k < |calls| && calls[k].page == Some(e.page) && e.text == RenderedText(calls[k].content)
    decreases |calls|
  {
    if calls != [] {
      var init, c := calls[..|calls| - 1], calls[|calls| - 1];
      CollectedFacts(targets, init, p);
      var prev := Collected(targets, init);
      var cur := Collected(targets, calls);
      assert forall k :: 0 <= k < |init| ==> init[k] == calls[k];
      if c.page.Some? && c.page.value in targets {
        assert FoundPages(cur) == FoundPages(prev) + [c.page.value];
      } else {
        assert cur == prev;
      }
      if RenderedPage(calls, p) && !RenderedPage(init, p) {
        assert c.page == Some(p);
      }
    }
  }

  // ---------------------------------------------------------------------
  // The handler
  // ---------------------------------------------------------------------

  /** The `catch` block: everything but a null rejection of a local read is `InternalError`. */
  function Caught(source: Source, safePath: string, f: Failure): (r: Reply)
    ensures r.Crashed? <==> source.FromPath? && f == FileFailure(Nullish)
    ensures !r.Crashed? ==> r.Raised? && r.error.kind == InternalError
  {
    var base := "Failed to read or parse PDF for page text from " + Description(source) + ".";
    match FailureMessage(base, source, safePath, f)
    case None => Crashed
    case Some(message) => Raised(McpError(InternalError, message))
  }

  /** The error when no entry was collected. */
  function NotFound(targets: seq<int>, total: Option<nat>): McpError
  {
    var count := if total.Some? then NatToString(total.value) else "unknown";
    McpError(InvalidRequest, "Requested pages (" + JoinNumbers(targets) + ") not found or rendered. Total pages: " + count + ".")
  }

  /**
   * From the PDF bytes on: parse with the callback, sort the entries by
   * page, and report; `count` is the page count of a second parse, `None`
   * when that throws.
   */
  function FromBuffer(targets: seq<int>, source: Source, safePath: string, buffer: string,
                      parse: string -> Parsed, count: string -> Option<nat>): Reply
  {
    match parse(buffer)
    case ParseFailed(name, message) => Caught(source, safePath, LibraryFailure(name, message))
    case Rendered(calls) =>
      var texts := SortBy(Collected(targets, calls), PageOf);
      var missing := Missing(targets, FoundPages(texts));
      if |texts| == 0 && |targets| > 0 then Raised(NotFound(targets, count(buffer)))
      else Replied(texts, if |missing| > 0 then Some(missing) else None)
  }

  /**
   * `handleReadPdfPageTextFunc`. The file system (`read`), the network
   * (`fetch`), the PDF parser (`parse`, `count`) and URL validity (`isUrl`)
   * are inputs.
   */
  function ReadPdfPageTextSpec(root: seq<string>, args: Json, isUrl: string -> bool, zodDetails: string,
                               read: string -> Outcome<string>, fetch: string -> Fetched,
                               parse: string -> Parsed, count: string -> Option<nat>): Reply
    requires ValidRoot(root)
  {
    match ParseRequest(args, isUrl, zodDetails)
    case Err(e) => Raised(e)
    case Ok(req) =>
      match Targets(req.pages)
      case Err(e) => Raised(e)
      case Ok(targets) =>
        match req.source
        case FromPath(p) =>
          var safe := ResolvePath(root, JStr(p));
          if safe.Err? then Raised(safe.error)
          else (
            match read(safe.value)
            case Fails(e) => Caught(req.source, safe.value, FileFailure(e))
            case Done(buffer) => FromBuffer(targets, req.source, safe.value, buffer, parse, count))
        case FromUrl(u) =>
          match fetch(u)
          case FetchFailed(name, message) => Caught(req.source, "", LibraryFailure(name, message))
          case Response(ok, status, statusText, body) =>
            if !ok then Raised(McpError(InternalError, "Failed to fetch PDF from " + u + ". Status: " + NatToString(status) + " " + statusText))
            else FromBuffer(targets, req.source, "", body, parse, count)
  }

  /** The handler as written: texts pushed by the callback, then sorted in place. */
  method HandleReadPdfPageText(root: seq<string>, args: Json, isUrl: string -> bool, zodDetails: string,
                               read: string -> Outcome<string>, fetch: string -> Fetched,
                               parse: string -> Parsed, count: string -> Option<nat>) returns (reply: Reply)
    requires ValidRoot(root)
    ensures reply == ReadPdfPageTextSpec(root, args, isUrl, zodDetails, read, fetch, parse, count)
  {
    var parsed := ParseRequest(args, isUrl, zodDetails);
    if parsed.Err? {
      return Raised(parsed.error);
    }
    var req := parsed.value;
    var checked := Targets(req.pages);
    if checked.Err? {
      return Raised(checked.error);
    }
    var targetPages := checked.value;
    var safePath := "";
    var dataBuffer;
    match req.source {
      case FromPath(p) =>
        var safe := ResolvePath(root, JStr(p));
        if safe.Err? {
          return Raised(safe.error);
        }
        safePath := safe.value;
        var bytes := read(safePath);
        if bytes.Fails? {
          return Caught(req.source, safePath, FileFailure(bytes.err));
        }
        dataBuffer := bytes.value;
      case FromUrl(u) =>
        var response := fetch(u);
        if response.FetchFailed? {
          return Caught(req.source, safePath, LibraryFailure(response.name, response.message));
        }
        if !response.ok {
          return Raised(McpError(InternalError, "Failed to fetch PDF from " + u + ". Status: " + NatToString(response.status) + " " + response.statusText));
        }
        dataBuffer := response.body;
    }
    var result := parse(dataBuffer);
    if result.ParseFailed? {
      return Caught(req.source, safePath, LibraryFailure(result.name, result.message));
    }
    var extractedTexts := CollectTexts(targetPages, result.calls);
    extractedTexts := SortedCopy(extractedTexts, PageOf);
    var missingPages := Missing(targetPages, FoundPages(extractedTexts));
    if |extractedTexts| == 0 && |targetPages| > 0 {
      return Raised(NotFound(targetPages, count(dataBuffer)));
    }
    return Replied(extractedTexts, if |missingPages| > 0 then Some(missingPages) else None);
  }

  // ---------------------------------------------------------------------
  // Properties
  // ---------------------------------------------------------------------

  /** Entries keep their pages when sorted. */
  lemma SortedPages(texts: seq<PageText>, p: int)
    ensures p in FoundPages(SortBy(texts, PageOf)) <==> p in FoundPages(texts)
  {
    var sorted := SortBy(texts, PageOf);
    SortByFacts(texts, PageOf);
    if p in FoundPages(sorted) {
      var k :| 0 <= k < |sorted| && FoundPages(sorted)[k] == p;
      assert sorted[k] in multiset(texts);
      var j :| 0 <= j < |texts| && texts[j] == sorted[k];
      assert FoundPages(texts)[j] == p;
    }
    if p in FoundPages(texts) {
      var j :| 0 <= j < |texts| && FoundPages(texts)[j] == p;
      assert texts[j] in multiset(sorted);
      var k :| 0 <= k < |sorted| && sorted[k] == texts[j];
      assert FoundPages(sorted)[k] == p;
    }
  }

  /** The pages of the sorted entries are the target pages some callback renders. */
  lemma SortedFound(targets: seq<int>, calls: seq<Render>)
    ensures forall x :: x in FoundPages(SortBy(Collected(targets, calls), PageOf)) <==> x in targets && RenderedPage(calls, x)
  {
    forall x
      ensures x in FoundPages(SortBy(Collected(targets, calls), PageOf)) <==> x in targets && RenderedPage(calls, x)
    {
      CollectedFacts(targets, calls, x);
      SortedPages(Collected(targets, calls), x);
    }
  }

  /** The missing pages are the target pages no callback renders, in ascending order. */
  lemma MissingUnrendered(targets: seq<int>, calls: seq<Render>)
    requires StrictlyAscending(targets)
    ensures StrictlyAscending(Missing(targets, FoundPages(SortBy(Collected(targets, calls), PageOf))))
    ensures forall x :: x in Missing(targets, FoundPages(SortBy(Collected(targets, calls), PageOf))) <==>
      x in targets && !RenderedPage(calls, x)
  {
    SortedFound(targets, calls);
    MissingFacts(targets, FoundPages(SortBy(Collected(targets, calls), PageOf)));
  }

  /**
   * When the parse succeeds and some callback renders a target page, the
   * reply holds the collected entries, sorted by page.
   */
  lemma RepliedSorted(targets: seq<int>, source: Source, safePath: string, buffer: string,
                      parse: string -> Parsed, count: string -> Option<nat>, calls: seq<Render>, q: int)
    requires parse(buffer) == Rendered(calls)
    requires q in targets && RenderedPage(calls, q)
    ensures FromBuffer(targets, source, safePath, buffer, parse, count).Replied?
    ensures SortedBy(FromBuffer(targets, source, safePath, buffer, parse, count).pages, PageOf)
    ensures multiset(FromBuffer(targets, source, safePath, buffer, parse, count).pages) == multiset(Collected(targets, calls))
  {
    var texts := SortBy(Collected(targets, calls), PageOf);
    SortByFacts(Collected(targets, calls), PageOf);
    SortedFound(targets, calls);
    assert q in FoundPages(texts);
  }

  /**
   * When the parse succeeds and some callback renders a target page,
   * `missingPages` is set exactly when some target page is not rendered,
   * and then holds those pages in ascending order.
   */
  lemma RepliedMissing(targets: seq<int>, source: Source, safePath: string, buffer: string,
                       parse: string -> Parsed, count: string -> Option<nat>, calls: seq<Render>, q: int, p: int)
    requires StrictlyAscending(targets)
    requires parse(buffer) == Rendered(calls)
    requires q in targets && RenderedPage(calls, q)
    ensures FromBuffer(targets, source, safePath, buffer, parse, count).Replied?
    ensures var r := FromBuffer(targets, source, safePath, buffer, parse, count);
      && (r.missingPages.Some? <==> exists x :: x in targets && !RenderedPage(calls, x))
      && (r.missingPages.Some? ==> StrictlyAscending(r.missingPages.value))
      && (r.missingPages.Some? ==> (p in r.missingPages.value <==> p in targets && !RenderedPage(calls, p)))
  {
    var texts := SortBy(Collected(targets, calls), PageOf);
    var missing := Missing(targets, FoundPages(texts));
    SortedFound(targets, calls);
    MissingUnrendered(targets, calls);
    assert q in FoundPages(texts);
    assert FromBuffer(targets, source, safePath, buffer, parse, count) == Replied(texts, if |missing| > 0 then Some(missing) else None);
    if exists x :: x in targets && !RenderedPage(calls, x) {
      var x :| x in targets && !RenderedPage(calls, x);
      assert x in missing;
    }
    if |missing| > 0 {
      assert missing[0] in missing;
    }
  }

  /**
   * When no callback carries a target page, the tool raises
   * `InvalidRequest` naming the requested pages and the page count of
   * the second parse, or `unknown`.
   */
  lemma NothingRenderedRaises(targets: seq<int>, source: Source, safePath: string, buffer: string,
                              parse: string -> Parsed, count: string -> Option<nat>)
    requires |targets| > 0
    requires parse(buffer).Rendered?
    requires forall q :: q in targets ==> !RenderedPage(parse(buffer).calls, q)
    ensures FromBuffer(targets, source, safePath, buffer, parse, count) == Raised(NotFound(targets, count(buffer)))
  {
    var calls := parse(buffer).calls;
    var collected := Collected(targets, calls);
    if |collected| > 0 {
      CollectedFacts(targets, calls, collected[0].page);
      assert false;
    }
    SortByFacts(collected, PageOf);
  }
}
