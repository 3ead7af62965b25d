/**
 * The `read_pdf` tool (readPdf.ts): validates its arguments, chooses the
 * pages to extract, rejects pages beyond the document, extracts and
 * orders page texts, and assembles the output field by field.
 */
module ReadPdf {
  import opened Common
  import opened PathUtils
  import opened BatchOrder
  import opened PageRanges
  import opened PdfShared

  /** The validated arguments, defaults applied. */
  datatype Request = Request(source: Source, fullText: bool, metadata: bool, pageCount: bool, pages: Option<PageSpec>)

  /** The keys the strict schema accepts. */
  const Keys: set<string> := {"path", "url", "include_full_text", "include_metadata", "include_page_count", "pages"}

  /** The `info` and `metadata` objects of a document (`JNull` for `undefined`). */
  datatype Metadata = Metadata(info: Json, metadata: Json)

  datatype MetadataOutcome = MetadataRead(value: Metadata) | MetadataFailed(name: string, message: string)

  /** A loaded document: its page count, its metadata, and what each page yields. */
  datatype Document = Document(numPages: nat, metadata: MetadataOutcome, content: int -> PageContent)

  /** What `getDocument(...).promise` settles to. */
  datatype Loaded = Loaded(doc: Document) | LoadFailed(name: string, message: string)

  /** What `getDocument` is given: the bytes of a local file, or `{ url }`. */
  datatype PdfData = FileData(bytes: string) | UrlData(url: string)

  /** The `output` object: each field present or absent as a key. */
  datatype Output = Output(info: Option<Json>, metadata: Option<Json>, numPages: Option<nat>,
                           pageTexts: Option<seq<PageText>>, missingPages: Option<seq<int>>, fullText: Option<string>)

  const NoFields := Output(None, None, None, None, None, None)

  const NoInformation := "No information requested. Set include_full_text, include_metadata, include_page_count to true or provide specific pages."

  /** How the handler settles: the output, the `message` object, an `McpError`, or a `TypeError`. */
  datatype Reply = Replied(output: Output) | Message(text: string) | Raised(error: McpError) | Crashed

  // ---------------------------------------------------------------------
  // Arguments
  // ---------------------------------------------------------------------

  /**
   * `ReadPdfArgsSchema.parse(args)`: a strict object whose fields pass
   * their checks, with exactly one of `path` and `url`, and without
   * `pages` together with `include_full_text`. The Zod issue list is the
   * `zodDetails` input.
   */
  function ParseRequest(args: Json, isUrl: string -> bool, zodDetails: string): (r: Result<Request>)
    ensures r.Err? ==> r.error == McpError(InvalidParams, "Invalid arguments: " + zodDetails)
    ensures r.Ok? ==> args.JObj? && args.fields.Keys <= Keys
    ensures r.Ok? && r.value.source.FromPath? ==>
      Field(args, "path") == Some(JStr(r.value.source.path)) && !(Field(args, "url").Some? && Truthy(Field(args, "url").value))
    ensures r.Ok? && r.value.source.FromUrl? ==> Field(args, "url") == Some(JStr(r.value.source.url)) && Field(args, "path").None?
    ensures r.Ok? ==> !(r.value.pages.Some? && r.value.fullText)
    ensures r.Ok? ==> (r.value.pages.Some? <==> Field(args, "pages").Some?)
    ensures r.Ok? ==> r.value.fullText == BoolOr(Field(args, "include_full_text"), false)
    ensures r.Ok? ==> r.value.metadata == BoolOr(Field(args, "include_metadata"), true)
    ensures r.Ok? ==> r.value.pageCount == BoolOr(Field(args, "include_page_count"), true)
    ensures Field(args, "path").None? && Field(args, "url").None? ==> r.Err?
    ensures Field(args, "pages").Some? && Field(args, "include_full_text") == Some(JBool(true)) ==> r.Err?
  {
    var invalid := Err(McpError(InvalidParams, "Invalid arguments: " + zodDetails));
    if !args.JObj? then invalid
    else
      var path, url := Field(args, "path"), Field(args, "url");
      var fullText, metadata, pageCount := Field(args, "include_full_text"), Field(args, "include_metadata"), Field(args, "include_page_count");
      var pages := Field(args, "pages");
      if !(args.fields.Keys <= Keys) || !PathFieldValid(path) || !UrlFieldValid(url, isUrl)
        || !BoolFieldValid(fullText) || !BoolFieldValid(metadata) || !BoolFieldValid(pageCount)
        || (pages.Some? && !PagesValid(pages.value))
      then invalid
      else
        var source := SourceOf(path, url);
        if source.None? || (pages.Some? && BoolOr(fullText, false)) then invalid
        else Ok(Request(source.value, BoolOr(fullText, false), BoolOr(metadata, true), BoolOr(pageCount, true),
                        if pages.Some? then Some(SpecOf(pages.value)) else None))
  }

  // ---------------------------------------------------------------------
  // Page selection and extraction
  // ---------------------------------------------------------------------

  /** `pagesToProcess`: the target pages, else every page for the full text, else none. */
  function Selected(targets: Option<seq<int>>, fullText: bool, numPages: nat): seq<int>
  {
    if targets.Some? then targets.value else if fullText then Interval(1, numPages + 1) else []
  }

  /** `pagesToProcess.filter(p => p > totalPages)`. */
  function Exceeding(pages: seq<int>, numPages: nat): (r: seq<int>)
    ensures forall p :: p in r <==> p in pages && p > numPages
    ensures (forall p :: p in pages ==> p <= numPages) ==> r == []
    decreases |pages|
  {
    if pages == [] then []
    else
      var prev := Exceeding(pages[..|pages| - 1], numPages);
      var last := pages[|pages| - 1];
      assert forall p :: p in pages <==> p in pages[..|pages| - 1] || p == last;
      assert last in pages;
      if last > numPages then prev + [last] else prev
  }

  /**
   * The entries the extraction loop pushes: the page's items joined
   * with `''`, or, for explicit pages only, `Error processing page: `
   * and the error's message.
   */
  function Extracted(content: int -> PageContent, pages: seq<int>, explicit: bool): seq<PageText>
    decreases |pages|
  {
    if pages == [] then []
    else
      var prev := Extracted(content, pages[..|pages| - 1], explicit);
      var p := pages[|pages| - 1];
      match content(p)
      case Items(strs) => prev + [PageText(p, Join(strs, ""))]
      case PageFailed(message) => if explicit then prev + [PageText(p, "Error processing page: " + message)] else prev
  }

  /** The loop `for (const pageNum of pagesToProcess)` with its `try`/`catch`. */
  method ExtractPageTexts(content: int -> PageContent, pages: seq<int>, explicit: bool) returns (texts: seq<PageText>)
    ensures texts == Extracted(content, pages, explicit)
  {
    texts := [];
    for k := 0 to |pages|
      invariant texts == Extracted(content, pages[..k], explicit)
    {
      assert pages[..k + 1][..k] == pages[..k];
      var pageNum := pages[k];
      match content(pageNum)
      case Items(strs) =>
        texts := texts + [PageText(pageNum, Join(strs, ""))];
      case PageFailed(message) =>
        if explicit {
          texts := texts + [PageText(pageNum, "Error processing page: " + message)];
        }
    }
    assert pages[..|pages|] == pages;
  }

  // ---------------------------------------------------------------------
  // The handler
  // ---------------------------------------------------------------------

  /**
   * The `catch` block: a null rejection of a local read crashes it; a
   * password or corruption error of the library is `InvalidRequest`;
   * anything else is `InternalError` with the message built from the failure.
   */
  function Caught(source: Source, safePath: string, f: Failure): (r: Reply)
    ensures r.Crashed? <==> source.FromPath? && f == FileFailure(Nullish)
    ensures f.LibraryFailure? && f.name == "PasswordException" ==>
      r == Raised(McpError(InvalidRequest, "PDF from " + Description(source) + " is password protected."))
    ensures f.LibraryFailure? && f.name == "InvalidPDFException" ==>
      r == Raised(McpError(InvalidRequest, "Invalid or corrupted PDF document from " + Description(source) + "."))
    ensures r.Raised? && r.error.kind == InvalidRequest ==> f.LibraryFailure?
    ensures f.FileFailure? && !r.Crashed? ==> r.Raised? && r.error.kind == InternalError
  {
    var base := "Failed to process PDF from " + Description(source) + ".";
    var message := FailureMessage(base, source, safePath, f);
    if message.None? then Crashed
    else if f.LibraryFailure? && f.name == "PasswordException" then
      Raised(McpError(InvalidRequest, "PDF from " + Description(source) + " is password protected."))
    else if f.LibraryFailure? && f.name == "InvalidPDFException" then
      Raised(McpError(InvalidRequest, "Invalid or corrupted PDF document from " + Description(source) + "."))
    else Raised(McpError(InternalError, message.value))
  }

  /** The output fields for the extracted `texts`. */
  function Compose(req: Request, targets: Option<seq<int>>, doc: Document, texts: seq<PageText>): Output
    requires req.metadata ==> doc.metadata.MetadataRead?
  {
    Output(
      if req.metadata then Some(doc.metadata.value.info) else None,
      if req.metadata then Some(doc.metadata.value.metadata) else None,
      if req.pageCount then Some(doc.numPages) else None,
      if targets.Some? then Some(texts) else None,
      if targets.Some? && Missing(targets.value, FoundPages(texts)) != [] then Some(Missing(targets.value, FoundPages(texts))) else None,
      if targets.None? && req.fullText then Some(Join(TextsOf(texts), "\n\n")) else None)
  }

  /** Steps 3 to 6 on a loaded document. */
  function Answer(req: Request, targets: Option<seq<int>>, doc: Document, safePath: string): Reply
  {
    if req.metadata && doc.metadata.MetadataFailed? then
      Caught(req.source, safePath, LibraryFailure(doc.metadata.name, doc.metadata.message))
    else
      var selected := Selected(targets, req.fullText, doc.numPages);
      var over := Exceeding(selected, doc.numPages);
      if over != [] then
        Raised(McpError(InvalidParams, "Requested page numbers " + JoinNumbers(over) + " exceed total pages (" + NatToString(doc.numPages) + ")."))
      else
        var texts := if |selected| > 0 then SortBy(Extracted(doc.content, selected, targets.Some?), PageOf) else [];
        var output := Compose(req, targets, doc, texts);
        if output == NoFields then Message(NoInformation) else Replied(output)
  }

  function Loading(req: Request, targets: Option<seq<int>>, loaded: Loaded, safePath: string): Reply
  {
    match loaded
    case LoadFailed(name, message) => Caught(req.source, safePath, LibraryFailure(name, message))
    case Loaded(doc) => Answer(req, targets, doc, safePath)
  }

  /**
   * `handleReadPdfFunc`. The file system (`read`), the PDF library
   * (`load`) and URL validity (`isUrl`) are inputs.
   */
  function ReadPdfSpec(root: seq<string>, args: Json, isUrl: string -> bool, zodDetails: string,
                       read: string -> Outcome<string>, load: PdfData -> Loaded): Reply
    requires ValidRoot(root)
  {
    match ParseRequest(args, isUrl, zodDetails)
    case Err(e) => Raised(e)
    case Ok(req) =>
      var checked := if req.pages.Some? then Some(Targets(req.pages.value)) else None;
      if checked.Some? && checked.value.Err? then Raised(checked.value.error)
      else
        var targets := if checked.Some? then Some(checked.value.value) else None;
        match req.source
        case FromPath(p) =>
          var safe := ResolvePath(root, JStr(p));
          if safe.Err? then Raised(safe.error)
          else (
            match read(safe.value)
            case Fails(e) => Caught(req.source, safe.value, FileFailure(e))
            case Done(bytes) => Loading(req, targets, load(FileData(bytes)), safe.value))
        case FromUrl(u) => Loading(req, targets, load(UrlData(u)), "")
  }

  /** The handler as written: validation, the target pages, and loading the document. */
  method HandleReadPdf(root: seq<string>, args: Json, isUrl: string -> bool, zodDetails: string,
                       read: string -> Outcome<string>, load: PdfData -> Loaded) returns (reply: Reply)
    requires ValidRoot(root)
    ensures reply == ReadPdfSpec(root, args, isUrl, zodDetails, read, load)
  {
    var parsed := ParseRequest(args, isUrl, zodDetails);
    if parsed.Err? {
      return Raised(parsed.error);
    }
    var req := parsed.value;
    var targets: Option<seq<int>> := None;
    if req.pages.Some? {
      var t := Targets(req.pages.value);
      if t.Err? {
        return Raised(t.error);
      }
      targets := Some(t.value);
    }
    var safePath := "";
    var loaded;
    match req.source {
      case FromPath(p) =>
        var safe := ResolvePath(root, JStr(p));
        if safe.Err? {
          return Raised(safe.error);
        }
        safePath := safe.value;
        var bytes := read(safePath);
        if bytes.Fails? {
          return Caught(req.source, safePath, FileFailure(bytes.err));
        }
        loaded := load(FileData(bytes.value));
      case FromUrl(u) =>
        loaded := load(UrlData(u));
    }
    if loaded.LoadFailed? {
      return Caught(req.source, safePath, LibraryFailure(loaded.name, loaded.message));
    }
    reply := Assemble(req, targets, loaded.doc, safePath);
  }

  /** Steps 3 to 6 as written: `output` filled field by field after extraction. */
  method Assemble(req: Request, targets: Option<seq<int>>, doc: Document, safePath: string) returns (reply: Reply)
    ensures reply == Answer(req, targets, doc, safePath)
  {
    var output := NoFields;
    if req.metadata {
      if doc.metadata.MetadataFailed? {
        return Caught(req.source, safePath, LibraryFailure(doc.metadata.name, doc.metadata.message));
      }
      output := output.(info := Some(doc.metadata.value.info), metadata := Some(doc.metadata.value.metadata));
    }
    if req.pageCount {
      output := output.(numPages := Some(doc.numPages));
    }
    var pagesToProcess := Selected(targets, req.fullText, doc.numPages);
    var invalidPages := Exceeding(pagesToProcess, doc.numPages);
    if |invalidPages| > 0 {
      return Raised(McpError(InvalidParams, "Requested page numbers " + JoinNumbers(invalidPages) + " exceed total pages (" + NatToString(doc.numPages) + ")."));
    }
    var texts: seq<PageText> := [];
    if |pagesToProcess| > 0 {
      texts := ExtractPageTexts(doc.content, pagesToProcess, targets.Some?);
      texts := SortedCopy(texts, PageOf);
    }
    if targets.Some? {
      output := output.(pageTexts := Some(texts));
      var missing := Missing(targets.value, FoundPages(texts));
      if |missing| > 0 {
        output := output.(missingPages := Some(missing));
      }
    } else if req.fullText {
      output := output.(fullText := Some(Join(TextsOf(texts), "\n\n")));
    }
    if output == NoFields {
      return Message(NoInformation);
    }
    return Replied(output);
  }

  // ---------------------------------------------------------------------
  // Properties
  // ---------------------------------------------------------------------

  /**
   * Pages beyond the document are rejected before any extraction, naming
   * exactly those pages in order; the full-text selection never exceeds.
   */
  lemma ExceedingPagesRaise(req: Request, targets: Option<seq<int>>, doc: Document, safePath: string)
    requires !(req.metadata && doc.metadata.MetadataFailed?)
    ensures Answer(req, targets, doc, safePath).Raised? <==> exists p :: p in Selected(targets, req.fullText, doc.numPages) && p > doc.numPages
    ensures Answer(req, targets, doc, safePath).Raised? ==>
      Answer(req, targets, doc, safePath).error.kind == InvalidParams
    ensures targets.None? ==> !Answer(req, targets, doc, safePath).Raised?
  {
    var selected := Selected(targets, req.fullText, doc.numPages);
    if Exceeding(selected, doc.numPages) != [] {
      assert Exceeding(selected, doc.numPages)[0] in Exceeding(selected, doc.numPages);
    }
  }

  /** Every entry is for a selected page, and ascending pages give entries in page order. */
  lemma {:induction false} ExtractedOrdered(content: int -> PageContent, pages: seq<int>, explicit: bool)
    ensures forall k :: 0 <= k < |Extracted(content, pages, explicit)| ==> Extracted(content, pages, explicit)[k].page in pages
    ensures StrictlyAscending(pages) ==> SortedBy(Extracted(content, pages, explicit), PageOf)
    decreases |pages|
  {
    if pages != [] {
      var init, last := pages[..|pages| - 1], pages[|pages| - 1];
      ExtractedOrdered(content, init, explicit);
      assert forall q :: q in init ==> q in pages;
      if StrictlyAscending(pages) {
        assert StrictlyAscending(init);
        assert forall q :: q in init ==> q < last;
      }
    }
  }

  lemma {:induction false} ExplicitEntries(content: int -> PageContent, pages: seq<int>)
    ensures |Extracted(content, pages, true)| == |pages|
    ensures forall k :: 0 <= k < |pages| ==> Extracted(content, pages, true)[k] == PageText(pages[k], PageTextOf(content(pages[k])))
    decreases |pages|
  {
    if pages != [] {
      ExplicitEntries(content, pages[..|pages| - 1]);
    }
  }

  /** The text an explicit page is reported with. */
  function PageTextOf(c: PageContent): string
  {
    match c
    case Items(strs) => Join(strs, "")
    case PageFailed(message) => "Error processing page: " + message
  }

  /** Explicit, ascending pages each get one entry, in order, and none is missing. */
  lemma ExplicitTexts(content: int -> PageContent, targets: seq<int>)
    requires StrictlyAscending(targets)
    ensures SortBy(Extracted(content, targets, true), PageOf) == Extracted(content, targets, true)
    ensures Missing(targets, FoundPages(Extracted(content, targets, true))) == []
  {
    var texts := Extracted(content, targets, true);
    ExplicitEntries(content, targets);
    ExtractedOrdered(content, targets, true);
    SortByKeepsSorted(texts, PageOf);
    var found := FoundPages(texts);
    MissingFacts(targets, found);
    forall p | p in targets
      ensures p in found
    {
      var k :| 0 <= k < |targets| && targets[k] == p;
      assert found[k] == p;
    }
    NoneMissing(targets, found);
  }

  /**
   * With explicit pages within the document, `page_texts` has exactly
   * one entry per target page, in the targets' order, holding the page's
   * joined text or its error; so `missing_pages` is never set.
   */
  lemma ExplicitPagesReported(req: Request, targets: seq<int>, doc: Document, safePath: string)
    requires !(req.metadata && doc.metadata.MetadataFailed?)
    requires |targets| > 0 && StrictlyAscending(targets)
    requires forall p :: p in targets ==> p <= doc.numPages
    ensures Answer(req, Some(targets), doc, safePath).Replied?
    ensures var out := Answer(req, Some(targets), doc, safePath).output;
      && out.pageTexts.Some?
      && |out.pageTexts.value| == |targets|
      && (forall k :: 0 <= k < |targets| ==> out.pageTexts.value[k] == PageText(targets[k], PageTextOf(doc.content(targets[k]))))
      && out.missingPages.None?
      && out.fullText.None?
  {
    ExplicitEntries(doc.content, targets);
    ExplicitTexts(doc.content, targets);
    assert Exceeding(targets, doc.numPages) == [];
  }

  lemma {:induction false} FullTextEntries(content: int -> PageContent, pages: seq<int>, p: int)
    ensures p in FoundPages(Extracted(content, pages, false)) <==> p in pages && content(p).Items?
    ensures forall k :: 0 <= k < |Extracted(content, pages, false)| ==>
      content(Extracted(content, pages, false)[k].page).Items? &&
      Extracted(content, pages, false)[k].text == Join(content(Extracted(content, pages, false)[k].page).strs, "")
    decreases |pages|
  {
    if pages != [] {
      var init, last := pages[..|pages| - 1], pages[|pages| - 1];
      FullTextEntries(content, init, p);
      assert forall q :: q in pages <==> q in init || q == last;
      var prev := Extracted(content, init, false);
      var e := Extracted(content, pages, false);
      if content(last).Items? {
        assert FoundPages(e) == FoundPages(prev) + [last];
      } else {
        assert e == prev;
      }
    }
  }

  /**
   * In full-text mode the text joins, with `"\n\n"`, the entries of the
   * pages of the document whose text could be read, in page order, and
   * only those.
   */
  lemma FullTextJoinsReadablePages(req: Request, doc: Document, safePath: string, p: int)
    requires !(req.metadata && doc.metadata.MetadataFailed?)
    requires req.fullText && doc.numPages > 0
    ensures Answer(req, None, doc, safePath).Replied?
    ensures var texts := Extracted(doc.content, Interval(1, doc.numPages + 1), false);
      && Answer(req, None, doc, safePath).output.fullText == Some(Join(TextsOf(texts), "\n\n"))
      && (p in FoundPages(texts) <==> 1 <= p <= doc.numPages && doc.content(p).Items?)
      && SortedBy(texts, PageOf)
  {
    var pages := Interval(1, doc.numPages + 1);
    var e := Extracted(doc.content, pages, false);
    assert Exceeding(pages, doc.numPages) == [];
    FullTextEntries(doc.content, pages, p);
    ExtractedOrdered(doc.content, pages, false);
    SortByKeepsSorted(e, PageOf);
    assert p in pages <==> 1 <= p <= doc.numPages by {
      if 1 <= p <= doc.numPages {
        assert pages[p - 1] == p;
      }
    }
  }

  /**
   * Each output field is present exactly when its option asks for it, and
   * the `message` object comes back exactly when nothing was asked for.
   */
  lemma FieldsFollowOptions(req: Request, targets: Option<seq<int>>, doc: Document, safePath: string)
    requires !(req.metadata && doc.metadata.MetadataFailed?)
    requires !Answer(req, targets, doc, safePath).Raised?
    ensures Answer(req, targets, doc, safePath).Message? <==> !req.metadata && !req.pageCount && targets.None? && !req.fullText
    ensures Answer(req, targets, doc, safePath).Replied? ==>
      var out := Answer(req, targets, doc, safePath).output;
      && (out.info.Some? <==> req.metadata)
      && (out.metadata.Some? <==> req.metadata)
      && (out.numPages == if req.pageCount then Some(doc.numPages) else None)
      && (out.pageTexts.Some? <==> targets.Some?)
      && (out.fullText.Some? <==> targets.None? && req.fullText)
  {
  }
}
