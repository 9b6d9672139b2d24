/** `mcp_findings_result.go`: a scan answers with its first page, and cursors fetch the rest of that scan. */
module FindingsPaging {
  import opened Wrappers
  import opened FindingsQuery
  import opened FindingsView
  import opened ReportCache

  datatype Page = Page(scanID: string, response: Response, next: Option<Token>)

  /** `pagedFindings`: a truncated page carries the cursor that continues it. */
  ghost predicate IsPage(page: Page, tool: string, scanID: string, report: Report, filters: Filters, glob: Glob, offset: nat) {
    && page.scanID == scanID
    && Answers(page.response, report, filters, glob, offset)
    && page.next == (if page.response.truncated
                     then Some(EncodeCursor(Cursor(scanID, tool, offset + page.response.returned, filters.selection)))
                     else None)
  }

  method PagedFindings(tool: string, scanID: string, report: Report, filters: Filters, glob: Glob, offset: nat)
    returns (page: Page)
    ensures IsPage(page, tool, scanID, report, filters, glob, offset)
  {
    hide *;
    var resp := BuildFindingsResponse(report, filters, glob, offset);
    AnswersCounts(resp, report, filters, glob, offset);
    var next: Option<Token> := None;
    if resp.truncated {
      next := Some(EncodeCursor(Cursor(scanID, tool, offset + |resp.findings|, filters.selection)));
    }
    page := Page(scanID, resp, next);
    PageBuilt(page, tool, report, filters, glob, offset);
  }

  lemma PageBuilt(page: Page, tool: string, report: Report, filters: Filters, glob: Glob, offset: nat)
    requires Answers(page.response, report, filters, glob, offset)
    requires page.next == (if page.response.truncated
                           then Some(EncodeCursor(Cursor(page.scanID, tool, offset + page.response.returned, filters.selection)))
                           else None)
    ensures IsPage(page, tool, page.scanID, report, filters, glob, offset)
  {
    hide Answers;
  }

  lemma AnswersCounts(resp: Response, report: Report, filters: Filters, glob: Glob, offset: nat)
    requires Answers(resp, report, filters, glob, offset)
    ensures |resp.findings| == resp.returned && resp.matched == |OrderedMatches(report, filters.selection, glob)|
    ensures resp.truncated ==> offset + resp.returned < resp.matched
  {
  }

  /** A cursor that names a scan of the log and a matching finding of that scan that is still to come. */
  ghost predicate PointsInto(raw: Token, scan: Cached, glob: Glob) {
    && DecodeCursor(raw).Ok? && raw.scanID == scan.id
    && raw.offset < |OrderedMatches(scan.report, raw.filters, glob)|
  }

  ghost predicate IsGenuine(raw: Token, log: seq<Cached>, glob: Glob) {
    exists k :: 0 <= k < |log| && PointsInto(raw, log[k], glob)
  }

  ghost function Handed(page: Page): set<Token> {
    if page.next.Some? then {page.next.value} else {}
  }

  lemma HandedIsGenuine(page: Page, tool: string, log: seq<Cached>, k: nat, filters: Filters, glob: Glob, offset: nat)
    requires k < |log| && log[k].id != "" && IsPage(page, tool, log[k].id, log[k].report, filters, glob, offset)
    ensures forall raw <- Handed(page) :: IsGenuine(raw, log, glob)
  {
    hide Answers;
    AnswersCounts(page.response, log[k].report, filters, glob, offset);
    if page.next.Some? {
      assert PointsInto(page.next.value, log[k], glob);
    }
  }

  lemma GenuineStays(raw: Token, log: seq<Cached>, scan: Cached, glob: Glob)
    requires IsGenuine(raw, log, glob)
    ensures IsGenuine(raw, log + [scan], glob)
  {
    hide PointsInto;
    var k :| 0 <= k < |log| && PointsInto(raw, log[k], glob);
    assert (log + [scan])[k] == log[k];
  }

  lemma FirstPageIsGenuine(page: Page, log: seq<Cached>, scan: Cached, filters: Filters, glob: Glob, issued: set<Token>)
    requires forall raw <- issued :: IsGenuine(raw, log, glob)
    requires scan.id != "" && IsPage(page, scan.tool, scan.id, scan.report, filters, glob, 0)
    ensures forall raw <- issued + Handed(page) :: IsGenuine(raw, log + [scan], glob)
  {
    hide IsPage, IsGenuine, Handed;
    assert (log + [scan])[|log|] == scan;
    HandedIsGenuine(page, scan.tool, log + [scan], |log|, filters, glob, 0);
    forall raw <- issued ensures IsGenuine(raw, log + [scan], glob) {
      GenuineStays(raw, log, scan, glob);
    }
  }

  /** `resumeFindingsResult` in terms of the log of scans. */
  ghost predicate Resumes(log: seq<Cached>, tool: string, raw: Token, filters: Filters, glob: Glob, now: int,
                          result: Result<Page, ToolError>) {
    exists resolved :: Resolves(log, raw, tool, filters.selection, now, resolved) && Serves(resolved, tool, filters, glob, result)
  }

  ghost predicate Serves(resolved: Result<(Cursor, Cached), CursorError>, tool: string, filters: Filters, glob: Glob,
                         result: Result<Page, ToolError>) {
    match resolved
    case Err(e) => result == Err(BadCursor(e))
    case Ok((cursor, scan)) =>
      if cursor.offset > |OrderedMatches(scan.report, filters.selection, glob)| then result == Err(BadCursor(PastEnd))
      else cursor.offset >= 0 && result.Ok? && IsPage(result.value, tool, scan.id, scan.report, filters, glob, cursor.offset)
  }

  datatype ToolError = NoScanID | BadCursor(error: CursorError)

  /** The findings tools, over their report cache. */
  class Findings {
    const cache: Cache
    const glob: Glob
    /** Every cursor handed out so far. */
    ghost var issued: set<Token>

    ghost predicate Valid()
      reads this, cache, cache.buffer
    {
      cache.Valid() && forall raw <- issued :: IsGenuine(raw, cache.log, glob)
    }

    constructor (now: int, blank: Cached, glob: Glob)
      ensures Valid() && issued == {} && cache.log == [] && this.glob == glob && cache.clock == now
      ensures fresh(cache) && fresh(cache.buffer)
    {
      cache := new Cache(now, blank);
      this.glob := glob;
      issued := {};
    }

    /** `findingsResult`: caches a fresh report and returns its first page. */
    method FindingsResult(tool: string, report: Report, filters: Filters, id: Option<string>, now: int, created: int)
      returns (result: Result<Page, ToolError>)
      requires Valid() && cache.clock <= now <= created
      requires id.Some? ==> id.value != "" && forall e <- cache.log :: e.id != id.value
      modifies this`issued, cache, cache.buffer
      ensures Valid() && (cache.buffer == old(cache.buffer) || fresh(cache.buffer))
      ensures id.None? ==> result == Err(NoScanID) && cache.log == old(cache.log) && issued == old(issued)
      ensures id.Some? ==>
        && result.Ok? && cache.log == old(cache.log) + [Cached(id.value, tool, report, created)]
        && IsPage(result.value, tool, id.value, report, filters, glob, 0)
        && issued == old(issued) + Handed(result.value)
    {
      hide IsPage, IsGenuine, Handed, Holds, Answers;
      var put := cache.Put(id, tool, report, now, created);
      if put.None? {
        return Err(NoScanID);
      }
      var page := PagedFindings(tool, id.value, report, filters, glob, 0);
      FirstPageIsGenuine(page, old(cache.log), Cached(id.value, tool, report, created), filters, glob, issued);
      issued := issued + Handed(page);
      result := Ok(page);
    }

    /** `resumeFindingsResult`: serves a later page of the scan that a cursor names, without a new scan. */
    method ResumeFindingsResult(tool: string, raw: Token, filters: Filters, now: int) returns (result: Result<Page, ToolError>)
      requires Valid() && cache.clock <= now
      modifies this`issued, cache`count, cache`clock, cache`evicted, cache.buffer
      ensures Valid() && cache.log == old(cache.log)
      ensures Resumes(cache.log, tool, raw, filters, glob, now, result)
      ensures issued == old(issued) + (if result.Ok? then Handed(result.value) else {})
    {
      hide IsPage, Answers, IsGenuine, Resumes, Resolves, Serves, Finds, Holds, Handed;
      var resolved := cache.ResolveCursor(raw, tool, filters, now);
      if resolved.Err? {
        FaultServes(cache.log, tool, raw, filters, glob, now, resolved);
        return Err(BadCursor(resolved.error));
      }
      var (cursor, scan) := resolved.value;
      ghost var k := ResolvedAt(cache.log, raw, tool, filters.selection, now, cursor, scan);
      var page := PagedFindings(tool, scan.id, scan.report, filters, glob, cursor.offset);
      PageServes(cache.log, tool, raw, filters, glob, now, cursor, scan, page);
      if cursor.offset > page.response.matched {
        return Err(BadCursor(PastEnd));
      }
      result := Ok(page);
      HandedIsGenuine(page, tool, cache.log, k, filters, glob, cursor.offset);
      issued := issued + Handed(page);
    }
  }

  lemma FaultServes(log: seq<Cached>, tool: string, raw: Token, filters: Filters, glob: Glob, now: int,
                    resolved: Result<(Cursor, Cached), CursorError>)
    requires resolved.Err? && Resolves(log, raw, tool, filters.selection, now, resolved)
    ensures Resumes(log, tool, raw, filters, glob, now, Err(BadCursor(resolved.error)))
  {
    hide Resolves;
    assert Serves(resolved, tool, filters, glob, Err(BadCursor(resolved.error)));
  }

  lemma PageServes(log: seq<Cached>, tool: string, raw: Token, filters: Filters, glob: Glob, now: int,
                   cursor: Cursor, scan: Cached, page: Page)
    requires Resolves(log, raw, tool, filters.selection, now, Ok((cursor, scan)))
    requires cursor.offset >= 0 && IsPage(page, tool, scan.id, scan.report, filters, glob, cursor.offset)
    ensures Resumes(log, tool, raw, filters, glob, now,
                    if cursor.offset > page.response.matched then Err(BadCursor(PastEnd)) else Ok(page))
  {
    PageCounts(page, tool, scan.id, scan.report, filters, glob, cursor.offset);
    hide IsPage, Resolves;
    assert Serves(Ok((cursor, scan)), tool, filters, glob,
                  if cursor.offset > page.response.matched then Err(BadCursor(PastEnd)) else Ok(page));
  }

  lemma ResolvedAt(log: seq<Cached>, raw: Token, tool: string, f: Selection, now: int, cursor: Cursor, scan: Cached)
    returns (k: nat)
    requires Resolves(log, raw, tool, f, now, Ok((cursor, scan)))
    ensures cursor.offset >= 0 && scan.id == cursor.scanID != "" && k < |log| && log[k] == scan
  {
    DecodedOffset(raw);
    k := FoundAt(log, cursor.scanID, now, scan);
  }

  lemma DecodedOffset(raw: Token)
    ensures DecodeCursor(raw).Ok? ==> DecodeCursor(raw).value.offset >= 0 && DecodeCursor(raw).value.scanID != ""
  {
  }

  lemma PageCounts(page: Page, tool: string, scanID: string, report: Report, filters: Filters, glob: Glob, offset: nat)
    requires IsPage(page, tool, scanID, report, filters, glob, offset)
    ensures page.response.matched == |OrderedMatches(report, filters.selection, glob)|
  {
  }

  lemma FoundAt(log: seq<Cached>, id: string, now: int, entry: Cached) returns (k: nat)
    requires Finds(log, id, now, entry)
    ensures k < |log| && log[k] == entry && entry.id == id && k >= |log| - CACHE_SIZE
  {
    k :| 0 <= k < |log| && k >= |log| - CACHE_SIZE && log[k] == entry && entry.id == id && Lives(entry, now);
  }

  lemma FindsOnly(log: seq<Cached>, clock: int, k: nat, now: int, entry: Cached)
    requires IsLog(log, clock) && k < |log|
    ensures Finds(log, log[k].id, now, entry) <==> entry == log[k] && k >= |log| - CACHE_SIZE && Lives(log[k], now)
  {
    if Finds(log, log[k].id, now, entry) {
      var j := FoundAt(log, log[k].id, now, entry);
      assert j == k;
    }
  }

  /** A cursor that was handed out for a scan and is sent back by the same tool with the same selection gives
      exactly the page that follows, out of that very scan, for as long as the scan is one of the last eight and
      under thirty minutes old; after that it is reported as expired. It fails in no other way. */
  lemma IssuedCursorResumes(log: seq<Cached>, clock: int, k: nat, raw: Token, filters: Filters, glob: Glob, now: int,
                            result: Result<Page, ToolError>)
    requires IsLog(log, clock) && k < |log| && PointsInto(raw, log[k], glob)
    requires filters.selection == raw.filters
    requires Resumes(log, raw.tool, raw, filters, glob, now, result)
    ensures if k >= |log| - CACHE_SIZE && Lives(log[k], now)
            then result.Ok? && IsPage(result.value, raw.tool, log[k].id, log[k].report, filters, glob, raw.offset)
            else result == Err(BadCursor(Expired))
  {
    hide IsPage, OrderedMatches, Finds;
    forall entry {
      FindsOnly(log, clock, k, now, entry);
    }
    var resolved :| Resolves(log, raw, raw.tool, filters.selection, now, resolved) && Serves(resolved, raw.tool, filters, glob, result);
    assert Finds(log, raw.scanID, now, log[k]) <==> k >= |log| - CACHE_SIZE && Lives(log[k], now);
  }

  // ----- whole sequences of pages -----

  /** What one client reads of a scan: the first page, then whatever each cursor gives, with the page size and
      verbosity it likes at every step. */
  ghost predicate IsReading(pages: seq<Page>, tool: string, scan: Cached, f: Selection, glob: Glob) {
    && (forall k :: 0 <= k < |pages| ==> ReadsPage(pages[k], tool, scan, f, glob))
    && (pages != [] ==> pages[0].response.offset == 0)
    && (forall k :: 0 <= k < |pages| - 1 ==> FollowedAt(pages, k))
  }

  ghost predicate FollowedAt(pages: seq<Page>, k: nat)
    requires k + 1 < |pages|
  {
    Follows(pages[k], pages[k + 1])
  }

  ghost predicate ReadsPage(page: Page, tool: string, scan: Cached, f: Selection, glob: Glob) {
    && page.response.filters.selection == f
    && IsPage(page, tool, scan.id, scan.report, page.response.filters, glob, page.response.offset)
  }

  ghost predicate Follows(before: Page, page: Page) {
    before.next.Some? && before.next.value.Fields? && before.next.value.offset == page.response.offset
  }

  /** The findings that a page shows, in full. */
  ghost function Shown(page: Page, items: seq<Item>): seq<Item> {
    PageOf(items, page.response.offset, page.response.filters.maxFindings)
  }

  ghost function AllShown(pages: seq<Page>, items: seq<Item>): seq<Item> {
    if pages == [] then [] else AllShown(pages[..|pages| - 1], items) + Shown(pages[|pages| - 1], items)
  }

  lemma PageSpan(page: Page, tool: string, scan: Cached, f: Selection, glob: Glob)
    requires ReadsPage(page, tool, scan, f, glob) && page.response.offset <= |OrderedMatches(scan.report, f, glob)|
    ensures var items, r := OrderedMatches(scan.report, f, glob), page.response;
        && r.offset + r.returned <= |items|
        && r.findings == Views(items[r.offset..r.offset + r.returned], r.filters.verbose)
        && Shown(page, items) == items[r.offset..r.offset + r.returned]
        && (page.next.Some? <==> r.offset + r.returned < |items|)
        && (page.next.Some? ==> page.next.value == EncodeCursor(Cursor(scan.id, tool, r.offset + r.returned, f)))
        && (page.next.Some? ==> r.returned == r.filters.maxFindings)
  {
    hide OrderedMatches, Views, IsTop, AllItems, PageOf;
    PageOfSpan(OrderedMatches(scan.report, f, glob), page.response.offset, page.response.filters.maxFindings);
  }

  lemma PageOfSpan(items: seq<Item>, offset: nat, limit: nat)
    requires offset <= |items|
    ensures var n := |PageOf(items, offset, limit)|;
      offset + n <= |items| && PageOf(items, offset, limit) == items[offset..offset + n] && (offset + n < |items| ==> n == limit)
  {
  }

  lemma SliceSnoc<T>(s: seq<T>, i: nat, j: nat)
    requires i <= j <= |s|
    ensures s[..i] + s[i..j] == s[..j]
  {
  }

  /** Where a page leaves off. */
  ghost function End(page: Page): nat {
    page.response.offset + page.response.returned
  }

  lemma NextPageStartsAtEnd(pages: seq<Page>, k: nat, tool: string, scan: Cached, f: Selection, glob: Glob)
    requires IsReading(pages, tool, scan, f, glob) && 1 <= k < |pages|
    requires pages[k - 1].response.offset <= |OrderedMatches(scan.report, f, glob)|
    ensures pages[k].response.offset == End(pages[k - 1]) < |OrderedMatches(scan.report, f, glob)|
    ensures End(pages[k - 1]) == pages[k - 1].response.offset + pages[k - 1].response.filters.maxFindings
  {
    hide OrderedMatches, PageOf, Views, Shown;
    PageSpan(pages[k - 1], tool, scan, f, glob);
    assert FollowedAt(pages, k - 1);
  }

  lemma LastReads(pages: seq<Page>, tool: string, scan: Cached, f: Selection, glob: Glob)
    requires IsReading(pages, tool, scan, f, glob) && pages != []
    ensures ReadsPage(pages[|pages| - 1], tool, scan, f, glob) && (|pages| == 1 ==> pages[0].response.offset == 0)
  {
    hide ReadsPage, Follows;
  }

  lemma ReadingPrefix(pages: seq<Page>, m: nat, tool: string, scan: Cached, f: Selection, glob: Glob)
    requires IsReading(pages, tool, scan, f, glob) && m <= |pages|
    ensures IsReading(pages[..m], tool, scan, f, glob)
  {
    hide ReadsPage, Follows;
    forall k | 0 <= k < m - 1 ensures FollowedAt(pages[..m], k) {
      assert FollowedAt(pages, k);
    }
  }

  /** The pages show a prefix of the matches, up to where the last one leaves off; and it has a cursor unless that is
      all of them. */
  ghost predicate ShowsPrefix(pages: seq<Page>, items: seq<Item>)
    requires pages != []
  {
    var last := pages[|pages| - 1];
    && last.response.offset <= End(last) <= |items|
    && AllShown(pages, items) == items[..End(last)]
    && (last.next.None? <==> End(last) == |items|)
  }

  lemma FirstPagePrefix(page: Page, tool: string, scan: Cached, f: Selection, glob: Glob)
    requires ReadsPage(page, tool, scan, f, glob) && page.response.offset == 0
    ensures ShowsPrefix([page], OrderedMatches(scan.report, f, glob))
  {
    PageSpan(page, tool, scan, f, glob);
    hide OrderedMatches, Shown, ReadsPage, Views;
    var items := OrderedMatches(scan.report, f, glob);
    assert AllShown([page], items) == [] + Shown(page, items) by {
      assert [page][..0] == [];
    }
    assert items[0..End(page)] == items[..End(page)];
  }

  lemma NextPagePrefix(pages: seq<Page>, page: Page, tool: string, scan: Cached, f: Selection, glob: Glob)
    requires pages != [] && ShowsPrefix(pages, OrderedMatches(scan.report, f, glob))
    requires ReadsPage(page, tool, scan, f, glob) && page.response.offset == End(pages[|pages| - 1])
    ensures ShowsPrefix(pages + [page], OrderedMatches(scan.report, f, glob))
  {
    PageSpan(page, tool, scan, f, glob);
    hide OrderedMatches, Shown, ReadsPage, Views;
    var items := OrderedMatches(scan.report, f, glob);
    assert (pages + [page])[..|pages|] == pages;
    SliceSnoc(items, page.response.offset, End(page));
  }

  /** Read in any page sizes, the pages show the ordered matches of the one scan from the first on, each exactly
      once and in order; a reading whose last page carries no cursor has shown them all. */
  lemma {:induction false} PagesArePrefix(pages: seq<Page>, tool: string, scan: Cached, f: Selection, glob: Glob)
    requires IsReading(pages, tool, scan, f, glob) && pages != []
    ensures ShowsPrefix(pages, OrderedMatches(scan.report, f, glob))
  {
    hide *;
    LastReads(pages, tool, scan, f, glob);
    var m := |pages| - 1;
    assert pages == pages[..m] + [pages[m]];
    if m == 0 {
      FirstPagePrefix(pages[0], tool, scan, f, glob);
    } else {
      ReadingPrefix(pages, m, tool, scan, f, glob);
      PagesArePrefix(pages[..m], tool, scan, f, glob);
      PrefixBounds(pages[..m], OrderedMatches(scan.report, f, glob));
      NextPageStartsAtEnd(pages, m, tool, scan, f, glob);
      NextPagePrefix(pages[..m], pages[m], tool, scan, f, glob);
    }
  }

  lemma PrefixBounds(pages: seq<Page>, items: seq<Item>)
    requires pages != [] && ShowsPrefix(pages, items)
    ensures pages[|pages| - 1].response.offset <= |items|
  {
  }

  /** Pages of one finding or more end the reading: after `n` of them at least `n - 1` findings are gone. */
  lemma {:induction false} PositivePagesAdvance(pages: seq<Page>, tool: string, scan: Cached, f: Selection, glob: Glob)
    requires IsReading(pages, tool, scan, f, glob) && pages != []
    requires forall page <- pages :: page.response.filters.maxFindings > 0
    ensures |pages| - 1 <= pages[|pages| - 1].response.offset <= |OrderedMatches(scan.report, f, glob)|
  {
    hide *;
    PagesArePrefix(pages, tool, scan, f, glob);
    PrefixBounds(pages, OrderedMatches(scan.report, f, glob));
    var m := |pages| - 1;
    if m > 0 {
      ReadingPrefix(pages, m, tool, scan, f, glob);
      PositivePagesAdvance(pages[..m], tool, scan, f, glob);
      assert pages[..m][m - 1] == pages[m - 1];
      NextPageStartsAtEnd(pages, m, tool, scan, f, glob);
    }
  }

  /** So a reading in positive pages takes at most as many further calls as findings matched, and when it cannot go
      on it has shown every matching finding of the scan as often as the scan reported it. */
  lemma PositivePagesCover(pages: seq<Page>, tool: string, scan: Cached, f: Selection, glob: Glob)
    requires IsReading(pages, tool, scan, f, glob) && pages != []
    requires forall page <- pages :: page.response.filters.maxFindings > 0
    ensures |pages| <= |OrderedMatches(scan.report, f, glob)| + 1
    ensures pages[|pages| - 1].next.None? ==>
      forall x :: multiset(AllShown(pages, OrderedMatches(scan.report, f, glob)))[x]
               == if ReasonFor(f, x, glob) == NotExcluded then multiset(AllItems(scan.report.sections))[x] else 0
  {
    PositivePagesAdvance(pages, tool, scan, f, glob);
    PagesArePrefix(pages, tool, scan, f, glob);
    OrderedMatchesExactly(scan.report, f, glob);
    var items := OrderedMatches(scan.report, f, glob);
    assert items[..|items|] == items;
  }

  /** A page size of zero is accepted and makes no headway: its cursor is for the same offset. */
  lemma EmptyPageRepeats(page: Page, tool: string, scan: Cached, f: Selection, glob: Glob)
    requires ReadsPage(page, tool, scan, f, glob) && page.response.filters.maxFindings == 0
    requires page.response.offset < |OrderedMatches(scan.report, f, glob)|
    ensures page.response.findings == [] && page.next.Some? && Follows(page, page)
  {
    PageSpan(page, tool, scan, f, glob);
  }
}
