/** The module-level state of test.js (`visitedUrls`, `urlsToTest` and
    `allIssues`, test.js:21-23) and the code that updates it in place:
    `crawl` (test.js:44-88), the audit loop and the two early returns of
    `runAccessibilityCrawlAndExport` (test.js:91-145). */
module Pipeline {
  import opened Wrappers
  import opened Urls
  import opened Crawler
  import opened Audit

  /** START_URL (test.js:8) with the two crawl limits. */
  datatype Config = Config(startUrl: Url, limits: Limits)

  /** The configuration test.js ships with (test.js:8, 9, 18). */
  const SourceConfig := Config("https://example.com", Limits(2, 100))

  /** How a run ends: the exit of test.js:38-41, the early returns of
      test.js:96-99 and 142-145, or the sheet handed to the spreadsheet
      writer (test.js:148-158). */
  datatype RunOutcome =
    | InvalidStartUrl
    | NoUrlsFound
    | NoIssuesFound
    | Exported(sheet: seq<IssueRecord>)

  /** The table of a run, URL by URL: since the crawl lists no URL twice,
      the rows for a URL are exactly the rows of its own audit, so a URL
      whose audit failed has exactly one row, a failure row, and a URL
      whose audit found n issues has exactly n rows, in issue order. */
  lemma RowsOfCrawledUrl(cfg: Config, web: Web, audit: Url -> AuditResult, u: Url)
    requires GetBaseUrl(cfg.startUrl).Some?
    ensures var urls := CrawlFrom(cfg.limits, GetBaseUrl(cfg.startUrl).value, web, cfg.startUrl, 0, Empty).found;
      RowsOf(AuditRecords(urls, audit), u) == if u in urls then RecordsFor(u, audit(u)) else []
  {
    var base := GetBaseUrl(cfg.startUrl).value;
    assert Valid(cfg.limits, base, Empty);
    CrawlFromKeepsValid(cfg.limits, base, web, cfg.startUrl, 0, Empty);
    var urls := CrawlFrom(cfg.limits, base, web, cfg.startUrl, 0, Empty).found;
    RowsOfAuditedUrl(urls, audit, u);
  }

  class Session {
    var visitedUrls: set<Url>
    var urlsToTest: seq<Url>
    var allIssues: seq<IssueRecord>

    /** The three collections as the script starts (test.js:21-23). */
    constructor ()
      ensures visitedUrls == {} && urlsToTest == [] && allIssues == []
    {
      visitedUrls, urlsToTest, allIssues := {}, [], [];
    }

    function State(): CrawlState
      reads this
    {
      CrawlState(visitedUrls, urlsToTest)
    }

    /** `crawl(url, depth)` with every recursive call awaited. The recursion
        becomes a stack of pending calls: a page's links are pushed on top
        in document order, so the first link's whole subtree runs before the
        second link, as in the recursion. */
    method Crawl(lim: Limits, base: string, web: Web, url: Url, depth: nat)
      modifies this
      ensures State() == CrawlFrom(lim, base, web, url, depth, old(State()))
      ensures allIssues == old(allIssues)
    {
      ghost var goal := CrawlFrom(lim, base, web, url, depth, State());
      var stack := [Item(url, depth)];
      while stack != []
        invariant Drain(lim, base, web, stack, State()) == goal
        invariant allIssues == old(allIssues)
        decreases Weight(lim, web, stack)
      {
        stack := Visit(lim, base, web, stack);
      }
    }

    /** One pending call `crawl(u, d)` taken off the stack: the depth,
        visited and page-cap checks of test.js:45, the base URL check of
        test.js:52, then `visitedUrls.add` and `urlsToTest.push`
        (test.js:58-59) and, for a fetched page, its links as new pending
        calls (test.js:70-83). What is left to do from the new state is
        what was left to do before, and the stack got lighter. */
    method Visit(lim: Limits, base: string, web: Web, stack: seq<Item>) returns (next: seq<Item>)
      requires stack != []
      modifies this
      ensures State() ==
                if Skipped(lim, base, old(State()), stack[0].url, stack[0].depth) then old(State())
                else Admit(old(State()), stack[0].url)
      ensures next ==
                if Skipped(lim, base, old(State()), stack[0].url, stack[0].depth) || Fetch(web, stack[0].url).None?
                then stack[1..]
                else Children(Links(web, stack[0].url), stack[0].depth + 1) + stack[1..]
      ensures Drain(lim, base, web, next, State()) == Drain(lim, base, web, stack, old(State()))
      ensures Weight(lim, web, next) < Weight(lim, web, stack)
      ensures allIssues == old(allIssues)
    {
      ghost var st := State();
      var u, d := stack[0].url, stack[0].depth;
      var rest := stack[1..];
      if d > lim.maxDepth || u in visitedUrls || |urlsToTest| >= lim.maxPages {
        DrainSkip(lim, base, web, stack, st);
        next := rest;
      } else if GetBaseUrl(u) != Some(base) {
        DrainSkip(lim, base, web, stack, st);
        next := rest;
      } else {
        visitedUrls := visitedUrls + {u};
        urlsToTest := urlsToTest + [u];
        assert State() == Admit(st, u);
        match Fetch(web, u) {
          case None =>
            DrainFetchFailed(lim, base, web, stack, st);
            next := rest;
          case Some(links) =>
            DrainExpand(lim, base, web, stack, st, links);
            next := Children(links, d + 1) + rest;
        }
      }
    }

    /** The loop of test.js:102-140: audit every listed URL in order and
        push its rows onto `allIssues`, one per issue (the `forEach` of
        test.js:108-120) or one failure row (test.js:128-138). */
    method AuditAll(audit: Url -> AuditResult)
      modifies this
      ensures allIssues == old(allIssues) + AuditRecords(urlsToTest, audit)
      ensures visitedUrls == old(visitedUrls) && urlsToTest == old(urlsToTest)
    {
      ghost var before := allIssues;
      for i := 0 to |urlsToTest|
        invariant visitedUrls == old(visitedUrls) && urlsToTest == old(urlsToTest)
        invariant allIssues == before + AuditRecords(urlsToTest[..i], audit)
      {
        var url := urlsToTest[i];
        ghost var done := allIssues;
        match audit(url) {
          case Success(title, issues) =>
            PushIssueRows(url, title, issues);
          case Failure(message) =>
            allIssues := allIssues + [FailureRow(url, message)];
        }
        assert allIssues == done + RecordsFor(url, audit(url));
        AuditRecordsStep(urlsToTest, i, audit);
        assert before + AuditRecords(urlsToTest[..i + 1], audit) ==
               before + AuditRecords(urlsToTest[..i], audit) + RecordsFor(url, audit(url));
      }
      assert urlsToTest[..|urlsToTest|] == urlsToTest;
    }

    /** The inner `forEach` of test.js:108-120: one row per issue of a
        successful audit, appended in the order pa11y reported them. */
    method PushIssueRows(url: Url, title: string, issues: seq<Issue>)
      modifies this
      ensures allIssues == old(allIssues) + RecordsFor(url, Success(title, issues))
      ensures visitedUrls == old(visitedUrls) && urlsToTest == old(urlsToTest)
    {
      ghost var done := allIssues;
      for j := 0 to |issues|
        invariant allIssues == done + RecordsFor(url, Success(title, issues[..j]))
        invariant visitedUrls == old(visitedUrls) && urlsToTest == old(urlsToTest)
      {
        IssueRowsStep(url, title, issues, j);
        allIssues := allIssues + [IssueRow(url, title, issues[j])];
      }
      assert issues[..|issues|] == issues;
    }

    /** `runAccessibilityCrawlAndExport` on a fresh script: stop when the
        start URL has no base URL (test.js:37-41), crawl from it at depth 0
        (test.js:93), stop when nothing was found (test.js:96-99), audit
        every URL (test.js:102-140), stop when there are no rows
        (test.js:142-145), and otherwise hand every row to the spreadsheet
        writer. */
    method Run(cfg: Config, web: Web, audit: Url -> AuditResult) returns (outcome: RunOutcome)
      requires visitedUrls == {} && urlsToTest == [] && allIssues == []
      modifies this
      ensures GetBaseUrl(cfg.startUrl).None? ==>
                outcome == InvalidStartUrl && visitedUrls == {} && urlsToTest == [] && allIssues == []
      ensures GetBaseUrl(cfg.startUrl).Some? ==>
                && State() == CrawlFrom(cfg.limits, GetBaseUrl(cfg.startUrl).value, web, cfg.startUrl, 0, Empty)
                && Valid(cfg.limits, GetBaseUrl(cfg.startUrl).value, State())
                && (cfg.limits.maxPages >= 1 ==> urlsToTest != [] && urlsToTest[0] == cfg.startUrl)
      ensures outcome == NoUrlsFound <==> GetBaseUrl(cfg.startUrl).Some? && cfg.limits.maxPages == 0
      ensures allIssues == if urlsToTest == [] then [] else AuditRecords(urlsToTest, audit)
      ensures outcome == NoUrlsFound <==> GetBaseUrl(cfg.startUrl).Some? && urlsToTest == []
      ensures outcome == NoIssuesFound <==> urlsToTest != [] && allIssues == []
      ensures outcome.Exported? <==> allIssues != []
      ensures outcome.Exported? ==> outcome.sheet == allIssues
    {
      var base := GetBaseUrl(cfg.startUrl);
      if base.None? {
        return InvalidStartUrl;
      }
      Crawl(cfg.limits, base.value, web, cfg.startUrl, 0);
      SeedCrawl(cfg.limits, web, cfg.startUrl);
      if |urlsToTest| == 0 {
        return NoUrlsFound;
      }
      AuditAll(audit);
      if |allIssues| == 0 {
        return NoIssuesFound;
      }
      return Exported(allIssues);
    }
  }
}
