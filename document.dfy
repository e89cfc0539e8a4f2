/** The request handler `redact_pdf` without its I/O: the file-name check,
    the loop over the pages the extractor returned, and the folding of each
    page's counts into the document totals. */
module Document {
  import opened Wrappers
  import opened Patterns
  import opened Redactor

  /** What `page.extract_text()` gave for one page: some text (possibly
      empty), nothing at all (`None`), or an exception. */
  datatype Extraction = Extracted(text: string) | NoText | ExtractFailed(message: string)

  /** The placeholder for a page without text. */
  const NoTextSentinel := "[No text could be extracted from this page]"

  /** The placeholder for a page whose processing raised. */
  function ErrorSentinel(message: string): string {
    "[Error processing this page: " + message + "]"
  }

  /** What one page contributes: its entry in `redacted_text`, its entry in
      `redaction_stats`, and whether its counts were folded into the totals. */
  datatype PageResult = PageResult(text: string, stats: map<string, nat>, redacted: bool)

  /** The body of the page loop for one page. */
  function ProcessPage(e: Engine, x: Extraction): PageResult {
    match x
    case ExtractFailed(msg) => PageResult(ErrorSentinel(msg), map[], false)
    case NoText => PageResult(NoTextSentinel, map[], false)
    case Extracted(t) =>
      if t == "" then PageResult(NoTextSentinel, map[], false)
      else match Redact(e, t)
        case Raised(msg) => PageResult(ErrorSentinel(msg), map[], false)
        case Ok(r) => PageResult(r.text, r.info, true)
  }

  /** The page results of a document, page by page. */
  function PageResults(e: Engine, xs: seq<Extraction>): (r: seq<PageResult>)
    ensures |r| == |xs| && forall i :: 0 <= i < |xs| ==> r[i] == ProcessPage(e, xs[i])
  {
    seq(|xs|, i requires 0 <= i < |xs| => ProcessPage(e, xs[i]))
  }

  /** The response body. */
  datatype Response =
    | Rejected(error: string)
    | Failed(error: string)
    | Processed(redactedText: seq<string>, redactionStats: seq<map<string, nat>>,
                totalRedactions: map<string, nat>, totalPages: nat)

  /** `filename.endswith('.pdf')`, case included. */
  predicate IsPdfName(filename: string) {
    |filename| >= 4 && filename[|filename| - 4..] == ".pdf"
  }

  /** The count of `k` in `m`, 0 when `m` has no such key. */
  function Get(m: map<string, nat>, k: string): nat {
    if k in m then m[k] else 0
  }

  /** Key-wise sum of two count maps: the keys of either, each with the sum of
      its counts. */
  function Merge(total: map<string, nat>, stats: map<string, nat>): map<string, nat> {
    map k | k in total.Keys + stats.Keys :: Get(total, k) + Get(stats, k)
  }

  /** `total_redactions` after the successful pages `pages`, in order. */
  function Totals(pages: seq<PageResult>): map<string, nat>
    decreases |pages|
  {
    if pages == [] then map[]
    else
      var last := pages[|pages| - 1];
      var before := Totals(pages[..|pages| - 1]);
      if last.redacted then Merge(before, last.stats) else before
  }

  /** The fold of one page's counts into the totals: for every key of the
      page, its count is added to the total's, or becomes the total when the
      key is new. */
  method AddStats(total: map<string, nat>, pageStats: map<string, nat>) returns (merged: map<string, nat>)
    ensures merged == Merge(total, pageStats)
  {
    merged := total;
    var pending := pageStats.Keys;
    while pending != {}
      invariant pending <= pageStats.Keys
      invariant merged.Keys == total.Keys + (pageStats.Keys - pending)
      invariant forall k :: k in merged ==>
        merged[k] == Get(total, k) + (if k in pending then 0 else Get(pageStats, k))
      decreases pending
    {
      var key :| key in pending;
      var value := pageStats[key];
      if key in merged {
        merged := merged[key := merged[key] + value];
      } else {
        merged := merged[key := value];
      }
      pending := pending - {key};
    }
  }

  /** The body of the page loop: the text and counts recorded for one page,
      and whether the counts go into the totals. */
  method RedactPage(e: Engine, x: Extraction) returns (text: string, stats: map<string, nat>, redacted: bool)
    ensures PageResult(text, stats, redacted) == ProcessPage(e, x)
  {
    match x {
      case ExtractFailed(msg) =>
        return ErrorSentinel(msg), map[], false;
      case NoText =>
        return NoTextSentinel, map[], false;
      case Extracted(t) =>
        if t == "" {
          return NoTextSentinel, map[], false;
        }
        var outcome := RedactSensitiveInfo(e, t);
        match outcome {
          case Raised(msg) =>
            return ErrorSentinel(msg), map[], false;
          case Ok(r) =>
            return r.text, r.info, true;
        }
    }
  }

  /** `redact_pdf` on a file whose name is `filename` and whose pages the
      extractor reported as `reader` (or the exception opening it raised). */
  method RedactPdf(e: Engine, filename: string, reader: Outcome<seq<Extraction>>) returns (response: Response)
    ensures !IsPdfName(filename) ==> response == Rejected("Only PDF files are allowed")
    ensures IsPdfName(filename) && reader.Raised? ==>
      response == Failed("Failed to process the PDF: " + reader.message)
    ensures IsPdfName(filename) && reader.Ok? ==>
      var pages := reader.value;
      && response.Processed?
      && |response.redactedText| == |response.redactionStats| == |pages| == response.totalPages
      && (forall i :: 0 <= i < |pages| ==>
            response.redactedText[i] == ProcessPage(e, pages[i]).text &&
            response.redactionStats[i] == ProcessPage(e, pages[i]).stats)
      && response.totalRedactions == Totals(PageResults(e, pages))
  {
    if !IsPdfName(filename) {
      return Rejected("Only PDF files are allowed");
    }
    if reader.Raised? {
      return Failed("Failed to process the PDF: " + reader.message);
    }
    var pages := reader.value;
    var redactedText: seq<string> := [];
    var redactionStats: seq<map<string, nat>> := [];
    var totalRedactions: map<string, nat> := map[];
    ghost var results: seq<PageResult> := [];
    var i := 0;
    while i < |pages|
      invariant 0 <= i <= |pages|
      invariant |results| == i && forall j :: 0 <= j < i ==> results[j] == ProcessPage(e, pages[j])
      invariant |redactedText| == |redactionStats| == i
      invariant forall j :: 0 <= j < i ==> redactedText[j] == results[j].text && redactionStats[j] == results[j].stats
      invariant totalRedactions == Totals(results)
    {
      ghost var page := ProcessPage(e, pages[i]);
      var text, stats, redacted := RedactPage(e, pages[i]);
      redactedText := redactedText + [text];
      redactionStats := redactionStats + [stats];
      if redacted {
        totalRedactions := AddStats(totalRedactions, stats);
      }
      assert (results + [page])[..i] == results;
      results := results + [page];
      i := i + 1;
    }
    assert results == PageResults(e, pages);
    response := Processed(redactedText, redactionStats, totalRedactions, |redactedText|);
  }
}
