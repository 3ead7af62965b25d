/**
 * Page selections of the PDF tools: `parsePageRanges` (defined identically
 * in readPdf.ts and readPdfPageText.ts) and the normalisation of the
 * `pages` argument into the list of target pages.
 */
module PageRanges {
  import opened Common
  import opened BatchOrder

  /** The pages selected, or the message of the `Error` thrown. */
  datatype Pages = Pages(pages: seq<int>) | Invalid(message: string)

  /** The `pages` argument after validation: an array of numbers or a range string. */
  datatype PageSpec = PageList(numbers: seq<int>) | PageString(ranges: string)

  // ---------------------------------------------------------------------
  // parseInt(s, 10)
  // ---------------------------------------------------------------------

  /** The longest prefix of decimal digits. */
  function DigitRun(s: string): (r: string)
    ensures |r| <= |s| && r == s[..|r|] && AllDigits(r)
    ensures |r| == |s| || !IsDigit(s[|r|])
  {
    if s == [] || !IsDigit(s[0]) then ""
    else
      var rest := DigitRun(s[1..]);
      assert [s[0]] + s[1..][..|rest|] == s[..|rest| + 1];
      [s[0]] + rest
  }

  /**
   * `parseInt(s, 10)`, `None` standing for `NaN`: leading whitespace is
   * skipped, one sign is read, then the longest run of digits; without a
   * digit the result is `NaN` (section 19.2.5 of ECMAScript 2020).
   */
  function ParseInt(s: string): Option<int>
  {
    var t := TrimStart(s);
    var negative := t != [] && t[0] == '-';
    var digits := DigitRun(Unsigned(t));
    if digits == [] then None
    else if negative then Some(-(DigitsValue(digits) as int))
    else Some(DigitsValue(digits))
  }

  /** What follows one leading sign, if there is one. */
  function Unsigned(t: string): (body: string)
    ensures t != [] && (t[0] == '-' || t[0] == '+') ==> body == t[1..]
    ensures t == [] || (t[0] != '-' && t[0] != '+') ==> body == t
  {
    if t != [] && (t[0] == '-' || t[0] == '+') then t[1..] else t
  }

  /** On a string of digits `parseInt` is its decimal value, and `NaN` on `""`. */
  lemma ParseIntDigits(s: string)
    requires AllDigits(s)
    ensures ParseInt(s) == if s == "" then None else Some(DigitsValue(s))
  {
    TrimDigits(s);
    DigitRunAll(s);
    if s != "" {
      assert s[0] != '-' && s[0] != '+' by {
        assert IsDigit(s[0]);
      }
    }
  }

  /** A string of digits has no leading whitespace to trim. */
  lemma TrimDigits(s: string)
    requires AllDigits(s)
    ensures TrimStart(s) == s
  {
    if s != "" {
      assert !Whitespace(s[0]) by {
        assert IsDigit(s[0]);
      }
    }
    assert LeadingWhitespace(s) == "";
  }

  /** On a string of digits the digit run is the whole string. */
  lemma DigitRunAll(s: string)
    requires AllDigits(s)
    ensures DigitRun(s) == s
  {
  }

  /** `parseInt(String(n), 10) == n`. */
  lemma {:induction false} ParseIntPrinted(n: nat)
    ensures ParseInt(NatToString(n)) == Some(n)
  {
    DigitsValuePrinted(n);
    ParseIntDigits(NatToString(n));
  }

  lemma {:induction false} DigitsValuePrinted(n: nat)
    ensures DigitsValue(NatToString(n)) == n
    decreases n
  {
    var s := NatToString(n);
    var d := Digit(n % 10);
    assert d == '0' + (n % 10) as char;
    if n >= 10 {
      DigitsValuePrinted(n / 10);
      assert s[..|s| - 1] == NatToString(n / 10);
    }
  }

  // ---------------------------------------------------------------------
  // parsePageRanges
  // ---------------------------------------------------------------------

  /** A string with a separator splits at its first occurrence. */
  lemma SplitAtFirst(s: string, sep: char, i: int)
    requires 0 <= i < |s| && s[i] == sep && sep !in s[..i]
    ensures Split(s, sep) == [s[..i]] + Split(s[i + 1..], sep)
  {
    assert s == s[..i] + [sep] + s[i + 1..];
    SplitAround(s[..i], sep, s[i + 1..]);
    SplitNoSeparator(s[..i], sep);
  }

  /** A string holding the separator splits into at least two fields. */
  lemma {:induction false} SeparatorSplits(s: string, sep: char)
    requires sep in s
    ensures |Split(s, sep)| >= 2
    decreases |s|
  {
    if s[0] != sep {
      assert sep in s[1..];
      SeparatorSplits(s[1..], sep);
    }
  }

  /**
   * The pages `[start, end]` one comma-separated part adds, or `None`
   * when the part makes `parsePageRanges` throw. A part holding `-` is a
   * range of its first two `-`-separated fields; any other part is one page.
   */
  function PartRange(part: string): Option<(int, int)>
  {
    if '-' in part then
      SeparatorSplits(part, '-');
      var fields := Split(part, '-');
      var start, end := ParseInt(fields[0]), ParseInt(fields[1]);
      if start.Some? && end.Some? && start.value <= end.value then Some((start.value, end.value)) else None
    else
      var page := ParseInt(part);
      if page.Some? then Some((page.value, page.value)) else None
  }

  /** The message thrown for a part that `PartRange` rejects. */
  function PartError(part: string): string
  {
    if '-' in part then "Invalid page range: " + part else "Invalid page number: " + part
  }

  /** One comma-separated part with the pages it adds, as `parsePageRanges` reads it. */
  datatype Part = Part(text: string, range: Option<(int, int)>)

  /** The parts of `ranges`, each with its `PartRange`. */
  function Parts(ranges: string): (ps: seq<Part>)
    ensures |ps| == |Split(ranges, ',')|
    ensures forall j :: 0 <= j < |ps| ==> ps[j] == Part(Split(ranges, ',')[j], PartRange(Split(ranges, ',')[j]))
  {
    var parts := Split(ranges, ',');
    seq(|parts|, j requires 0 <= j < |parts| => Part(parts[j], PartRange(parts[j])))
  }

  /** The message of the first rejected part, if any. */
  function FirstInvalid(ps: seq<Part>): Option<string>
    decreases |ps|
  {
    if ps == [] then None
    else
      var prev := FirstInvalid(ps[..|ps| - 1]);
      if prev.Some? then prev
      else if ps[|ps| - 1].range.None? then Some(PartError(ps[|ps| - 1].text))
      else None
  }

  /** The integers `from, from + 1, ..., to - 1`. */
  function Interval(from: int, to: int): (r: seq<int>)
    ensures |r| == if from <= to then to - from else 0
    ensures forall k :: 0 <= k < |r| ==> r[k] == from + k
  {
    if from < to then seq(to - from, k => from + k) else []
  }

  lemma IntervalStep(from: int, to: int)
    requires from <= to
    ensures Interval(from, to + 1) == Interval(from, to) + [to]
  {
    var a, b := Interval(from, to + 1), Interval(from, to) + [to];
    assert |a| == |b|;
    forall k | 0 <= k < |a|
      ensures a[k] == b[k]
    {
    }
  }

  /** The pages one part adds, in the order it adds them. */
  function Span(p: Part): seq<int>
  {
    if p.range.Some? then Interval(p.range.value.0, p.range.value.1 + 1) else []
  }

  /** The pages the parts add to the set, in the order they are added. */
  function Added(ps: seq<Part>): seq<int>
    decreases |ps|
  {
    if ps == [] then [] else Added(ps[..|ps| - 1]) + Span(ps[|ps| - 1])
  }

  function PageNumber(p: int): int { p }

  /**
   * `parsePageRanges(ranges)`: the first rejected part's message, or the
   * pages of the set in insertion order, sorted numerically.
   */
  function PageRanges(ranges: string): Pages
  {
    var ps := Parts(ranges);
    match FirstInvalid(ps)
    case Some(message) => Invalid(message)
    case None => Pages(SortBy(Dedup(Added(ps)), PageNumber))
  }

  /** A part covers page `x` when its range holds `x`. */
  predicate Covers(p: Part, x: int)
  {
    p.range.Some? && p.range.value.0 <= x <= p.range.value.1
  }

  predicate StrictlyAscending(s: seq<int>)
  {
    forall i, j :: 0 <= i < j < |s| ==> s[i] < s[j]
  }

  lemma {:induction false} FirstInvalidNone(ps: seq<Part>)
    ensures FirstInvalid(ps).None? <==> forall j :: 0 <= j < |ps| ==> ps[j].range.Some?
    decreases |ps|
  {
    if ps != [] {
      FirstInvalidNone(ps[..|ps| - 1]);
    }
  }

  /** One more part: its pages are added, and it is the first rejected one when it is invalid. */
  lemma PartsStep(ps: seq<Part>, k: nat)
    requires k < |ps| && FirstInvalid(ps[..k]).None?
    ensures Added(ps[..k + 1]) == Added(ps[..k]) + Span(ps[k])
    ensures FirstInvalid(ps[..k + 1]) == if ps[k].range.None? then Some(PartError(ps[k].text)) else None
  {
    assert ps[..k + 1][..k] == ps[..k];
  }

  lemma FirstInvalidSticks(ps: seq<Part>, k: nat)
    requires k <= |ps| && FirstInvalid(ps[..k]).Some?
    ensures FirstInvalid(ps) == FirstInvalid(ps[..k])
    decreases |ps| - k
  {
    if k < |ps| {
      assert ps[..k + 1][..k] == ps[..k];
      FirstInvalidSticks(ps, k + 1);
    } else {
      assert ps[..k] == ps;
    }
  }

  lemma DedupAppend(xs: seq<int>, x: int)
    ensures Dedup(xs + [x]) == if x in Dedup(xs) then Dedup(xs) else Dedup(xs) + [x]
  {
    assert (xs + [x])[..|xs|] == xs;
  }

  /** `for (let i = start; i <= end; i++) pages.add(i)`, the set kept in insertion order. */
  method AddInterval(ghost added: seq<int>, pages: seq<int>, start: int, end: int) returns (next: seq<int>)
    requires pages == Dedup(added) && start <= end
    ensures next == Dedup(added + Interval(start, end + 1))
  {
    next := pages;
    var i := start;
    assert added + Interval(start, i) == added;
    while i <= end
      invariant start <= i <= end + 1
      invariant next == Dedup(added + Interval(start, i))
    {
      IntervalStep(start, i);
      assert added + Interval(start, i + 1) == (added + Interval(start, i)) + [i];
      DedupAppend(added + Interval(start, i), i);
      if i !in next {
        next := next + [i];
      }
      i := i + 1;
    }
  }

  /**
   * The body of the loop of `parsePageRanges` for one part: `None` where it
   * throws, otherwise the part's pages are added one by one.
   */
  method AddPart(ghost added: seq<int>, pages: seq<int>, part: string) returns (next: seq<int>, range: Option<(int, int)>)
    requires pages == Dedup(added)
    ensures range == PartRange(part)
    ensures range.Some? ==> next == Dedup(added + Span(Part(part, range)))
  {
    range := PartRange(part);
    if range.None? {
      return pages, None;
    }
    var start, end := range.value.0, range.value.1;
    if '-' in part {
      next := AddInterval(added, pages, start, end);
      SpanOfRange(added, part, start, end);
    } else {
      assert start == end;
      next := AddPage(added, pages, start);
      SpanOfPage(added, part, start);
    }
  }

  /** `pages.add(page)`. */
  method AddPage(ghost added: seq<int>, pages: seq<int>, page: int) returns (next: seq<int>)
    requires pages == Dedup(added)
    ensures next == Dedup(added + [page])
  {
    DedupAppend(added, page);
    next := if page in pages then pages else pages + [page];
  }

  /** The pages a range part adds are its interval. */
  lemma SpanOfRange(added: seq<int>, part: string, start: int, end: int)
    ensures Dedup(added + Span(Part(part, Some((start, end))))) == Dedup(added + Interval(start, end + 1))
  {
  }

  /** A single-page part adds that page. */
  lemma SpanOfPage(added: seq<int>, part: string, page: int)
    ensures Dedup(added + Span(Part(part, Some((page, page))))) == Dedup(added + [page])
  {
    assert Span(Part(part, Some((page, page)))) == [page];
  }

  /**
   * `parsePageRanges`: parts are read in order, the first rejected one
   * throws, and the pages of the set are returned in numeric order.
   */
  method ParsePageRanges(ranges: string) returns (r: Pages)
    ensures r == PageRanges(ranges)
  {
    var parts := Split(ranges, ',');
    ghost var ps := Parts(ranges);
    var pages: seq<int> := [];
    for k := 0 to |parts|
      invariant FirstInvalid(ps[..k]).None?
      invariant pages == Dedup(Added(ps[..k]))
    {
      var part := parts[k];
      assert ps[k] == Part(part, PartRange(part));
      PartsStep(ps, k);
      var range;
      pages, range := AddPart(Added(ps[..k]), pages, part);
      if range.None? {
        FirstInvalidSticks(ps, k + 1);
        return Invalid(PartError(part));
      }
    }
    assert ps[..|ps|] == ps;
    var sorted := SortedCopy(pages, PageNumber);
    return Pages(sorted);
  }

  // ---------------------------------------------------------------------
  // What the parsed pages are
  // ---------------------------------------------------------------------

  lemma SpanCovers(p: Part, x: int)
    ensures x in Span(p) <==> Covers(p, x)
  {
    if Covers(p, x) {
      assert Span(p)[x - p.range.value.0] == x;
    }
  }

  lemma {:induction false} AddedCovers(ps: seq<Part>, x: int)
    ensures x in Added(ps) <==> exists j :: 0 <= j < |ps| && Covers(ps[j], x)
    decreases |ps|
  {
    if ps != [] {
      var init, last := ps[..|ps| - 1], ps[|ps| - 1];
      AddedCovers(init, x);
      SpanCovers(last, x);
      if exists j :: 0 <= j < |ps| && Covers(ps[j], x) {
        var j :| 0 <= j < |ps| && Covers(ps[j], x);
        if j < |init| {
          assert Covers(init[j], x);
        }
      }
    }
  }

  lemma {:induction false} CountAtMostOne(s: seq<int>, v: int)
    requires forall i, j :: 0 <= i < j < |s| ==> s[i] != s[j]
    ensures multiset(s)[v] <= 1
    decreases |s|
  {
    if s != [] {
      var init := s[..|s| - 1];
      CountAtMostOne(init, v);
      assert s == init + [s[|s| - 1]];
      if v == s[|s| - 1] {
        assert v !in init;
      }
    }
  }

  /** A sorted permutation of a duplicate-free sequence is strictly ascending. */
  lemma SortedDistinctAscending(s: seq<int>, d: seq<int>)
    requires SortedBy(s, PageNumber) && multiset(s) == multiset(d)
    requires forall i, j :: 0 <= i < j < |d| ==> d[i] != d[j]
    ensures StrictlyAscending(s)
  {
    forall i, j | 0 <= i < j < |s|
      ensures s[i] < s[j]
    {
      if s[i] == s[j] {
        assert s == s[..i] + [s[i]] + s[i + 1..j] + [s[j]] + s[j + 1..];
        assert multiset(s)[s[i]] >= 2;
        CountAtMostOne(d, s[i]);
      }
    }
  }

  /**
   * `parsePageRanges` throws exactly when some part is rejected, with the
   * message of the first one; otherwise its result is strictly ascending
   * and holds exactly the pages some part's range covers.
   */
  lemma PageRangesFacts(ranges: string)
    ensures PageRanges(ranges).Invalid? <==> exists j :: 0 <= j < |Parts(ranges)| && Parts(ranges)[j].range.None?
    ensures PageRanges(ranges).Pages? ==> StrictlyAscending(PageRanges(ranges).pages)
    ensures PageRanges(ranges).Pages? ==>
      forall x :: x in PageRanges(ranges).pages <==> exists j :: 0 <= j < |Parts(ranges)| && Covers(Parts(ranges)[j], x)
  {
    var ps := Parts(ranges);
    FirstInvalidNone(ps);
    if FirstInvalid(ps).None? {
      var d := Dedup(Added(ps));
      DedupElements(Added(ps));
      SortByFacts(d, PageNumber);
      SortedDistinctAscending(SortBy(d, PageNumber), d);
      forall x
        ensures x in PageRanges(ranges).pages <==> exists j :: 0 <= j < |ps| && Covers(ps[j], x)
      {
        assert x in SortBy(d, PageNumber) <==> x in multiset(d);
        AddedCovers(ps, x);
      }
    }
  }

  /** The message names the first rejected part. */
  lemma {:induction false} FirstInvalidIsFirst(ps: seq<Part>, j: int)
    requires 0 <= j < |ps| && ps[j].range.None?
    requires forall i :: 0 <= i < j ==> ps[i].range.Some?
    ensures FirstInvalid(ps) == Some(PartError(ps[j].text))
    decreases |ps|
  {
    if j < |ps| - 1 {
      FirstInvalidIsFirst(ps[..|ps| - 1], j);
    } else {
      FirstInvalidNone(ps[..|ps| - 1]);
    }
  }

  /** A range `a-b` of two digit strings with `a <= b` covers exactly `a..b`. */
  lemma DigitRange(a: string, b: string)
    requires a != "" && b != "" && AllDigits(a) && AllDigits(b)
    requires DigitsValue(a) <= DigitsValue(b)
    ensures PartRange(a + "-" + b) == Some((DigitsValue(a) as int, DigitsValue(b) as int))
  {
    DigitsNoDash(a);
    DigitsNoDash(b);
    FieldsOfTwo(a, b);
    ParseIntDigits(a);
    ParseIntDigits(b);
  }

  lemma DigitsNoDash(s: string)
    requires AllDigits(s)
    ensures '-' !in s
  {
    assert forall k :: 0 <= k < |s| ==> IsDigit(s[k]);
  }

  /** Two ranges with the same first two fields denote the same pages. */
  lemma SameFields(p: string, q: string)
    requires '-' in p && '-' in q
    requires Split(p, '-')[0] == Split(q, '-')[0]
    requires |Split(p, '-')| >= 2 && |Split(q, '-')| >= 2 && Split(p, '-')[1] == Split(q, '-')[1]
    ensures PartRange(p) == PartRange(q)
  {
  }

  /** The first two fields of `a-b-c` are `a` and `b`. */
  lemma FieldsOfThree(a: string, b: string, c: string)
    requires '-' !in a && '-' !in b
    ensures '-' in a + "-" + b + "-" + c
    ensures var fields := Split(a + "-" + b + "-" + c, '-'); |fields| >= 2 && fields[0] == a && fields[1] == b
  {
    var rest := b + "-" + c;
    var part := a + "-" + rest;
    assert a + "-" + b + "-" + c == part;
    assert part[|a|] == '-' && part[..|a|] == a && part[|a| + 1..] == rest;
    assert rest[|b|] == '-' && rest[..|b|] == b;
    SplitAtFirst(part, '-', |a|);
    SplitAtFirst(rest, '-', |b|);
  }

  /** `a-b` splits into `a` and `b`. */
  lemma FieldsOfTwo(a: string, b: string)
    requires '-' !in a && '-' !in b
    ensures '-' in a + "-" + b
    ensures Split(a + "-" + b, '-') == [a, b]
  {
    var two := a + "-" + b;
    assert two[|a|] == '-' && two[..|a|] == a && two[|a| + 1..] == b;
    SplitAtFirst(two, '-', |a|);
    SplitNoSeparator(b, '-');
  }

  /** Only the first two fields of a range are read: `a-b-c` is the range `a-b`. */
  lemma ThirdFieldIgnored(a: string, b: string, c: string)
    requires '-' !in a && '-' !in b
    ensures PartRange(a + "-" + b + "-" + c) == PartRange(a + "-" + b)
  {
    FieldsOfThree(a, b, c);
    FieldsOfTwo(a, b);
    SameFields(a + "-" + b + "-" + c, a + "-" + b);
  }

  /** A range with an empty end, such as `5-`, is rejected. */
  lemma EmptyEndRejected(a: string)
    requires '-' !in a
    ensures PartRange(a + "-") == None
  {
    var p := a + "-";
    assert p[|a|] == '-' && p[..|a|] == a && p[|a| + 1..] == "";
    SplitAtFirst(p, '-', |a|);
    ParseIntDigits("");
  }

  /** A range with an empty start, such as `-5`, is rejected. */
  lemma EmptyStartRejected(b: string)
    ensures PartRange("-" + b) == None
  {
    var p := "-" + b;
    assert p[0] == '-' && p[..0] == "" && p[1..] == b;
    SplitAtFirst(p, '-', 0);
    ParseIntDigits("");
  }

  // ---------------------------------------------------------------------
  // The target pages
  // ---------------------------------------------------------------------

  /** The parsed or de-duplicated, sorted pages, before the positivity check. */
  function Requested(spec: PageSpec): Pages
  {
    match spec
    case PageString(ranges) => PageRanges(ranges)
    case PageList(numbers) => Pages(SortBy(Dedup(numbers), PageNumber))
  }

  /**
   * `targetPages`, or the message of the `Error` that the handler wraps as
   * `Invalid page specification: ...`: an empty list or one with a page
   * below 1 is rejected.
   */
  function TargetPages(spec: PageSpec): Pages
  {
    var requested := Requested(spec);
    if requested.Invalid? then requested
    else if |requested.pages| == 0 || exists p :: p in requested.pages && p <= 0 then
      Invalid("Page numbers must be positive integers.")
    else requested
  }

  /**
   * The target pages are a non-empty, strictly ascending list of positive
   * pages, holding exactly the requested numbers or the pages the ranges
   * cover; a list is rejected exactly when it is empty or holds a number
   * below 1.
   */
  lemma TargetPagesFacts(spec: PageSpec)
    ensures TargetPages(spec).Pages? ==> |TargetPages(spec).pages| > 0 && StrictlyAscending(TargetPages(spec).pages)
    ensures TargetPages(spec).Pages? ==> forall p :: p in TargetPages(spec).pages ==> p >= 1
    ensures spec.PageList? ==> (TargetPages(spec).Pages? <==> |spec.numbers| > 0 && forall p :: p in spec.numbers ==> p >= 1)
    ensures spec.PageList? && TargetPages(spec).Pages? ==> forall p :: p in TargetPages(spec).pages <==> p in spec.numbers
    ensures spec.PageString? && TargetPages(spec).Pages? ==>
      forall x :: x in TargetPages(spec).pages <==> exists j :: 0 <= j < |Parts(spec.ranges)| && Covers(Parts(spec.ranges)[j], x)
  {
    match spec
    case PageString(ranges) =>
      PageRangesFacts(ranges);
    case PageList(numbers) =>
      ListRequested(numbers);
  }

  /** The de-duplicated, sorted list holds exactly the requested numbers, in strictly ascending order. */
  lemma ListRequested(numbers: seq<int>)
    ensures var r := Requested(PageList(numbers)); r.Pages? && StrictlyAscending(r.pages)
    ensures var r := Requested(PageList(numbers)); forall p :: p in r.pages <==> p in numbers
  {
    var d := Dedup(numbers);
    DedupElements(numbers);
    SortByFacts(d, PageNumber);
    SortedDistinctAscending(SortBy(d, PageNumber), d);
    forall p
      ensures p in SortBy(d, PageNumber) <==> p in numbers
    {
      assert p in SortBy(d, PageNumber) <==> p in multiset(d);
    }
  }
}
