# WCAG crawl-and-audit script, modelled in Dafny

`test.js` is a Node script that checks a web site for accessibility
problems in two phases.

1. **Crawl.** Starting from `START_URL`, `crawl(url, depth)` lists a
   page and then starts a `crawl` for each of its links, one level
   deeper, without awaiting it. It stays on the start URL's `protocol//host`
   (`BASE_DOMAIN`, computed by `getBaseUrl`). It stops at
   `MAX_CRAWL_DEPTH` links from the start and at `MAX_PAGES_TO_CRAWL`
   listed pages. Admitted pages go into the module-level `visitedUrls`
   set and the `urlsToTest` list.
2. **Audit.** `runAccessibilityCrawlAndExport` audits every listed URL
   with pa11y, in list order. It flattens the results into `allIssues`:
   one row per reported issue, or one synthetic `Error (Pa11y)` row
   when the audit throws. It returns early when the crawl found nothing
   or no rows were produced; otherwise it hands the rows to the
   spreadsheet writer.

The Dafny project has one module per concern:

- `wrappers.dfy` (`Wrappers`): the `Option` type.
- `urls.dfy` (`Urls`):
  - a simple URL parser standing in for Node's `URL` constructor;
  - its round trip with `Format`;
  - `GetBaseUrl`.
- `crawler.dfy` (`Crawler`):
  - the site as data, a map from URL to the page's resolved links, or
    `None` for a page that could not be fetched;
  - the recursion of `crawl` as the mutually recursive functions
    `CrawlFrom` / `CrawlLinks`, the specification of the imperative
    crawl;
  - the crawl's invariants (`Valid`), its depth bound, its outcome per
    call;
  - the stack (`Drain`) and the size measure (`Weight`) that tie the
    imperative loop to the recursion.
- `audit.dfy` (`Audit`):
  - the pa11y result, the issue and the nine-column row;
  - the rows of one audit (`RecordsFor`) and of a list of audits
    (`AuditRecords`);
  - the lemmas about grouping and counting rows.
- `pipeline.dfy` (`Pipeline`): the class `Session`. Its fields are the
  three module-level collections of the script. Its methods update them
  in place:
  - `Crawl`, a loop over an explicit stack of pending calls, proved
    equal to the recursion;
  - `AuditAll`, the nested push loops;
  - `Run`, the whole run with its three exits.
- `scenarios.dfy` (`Scenarios`): small sites and audit outcomes worked
  out in full.

## Model

| member | source | states |
|---|---|---|
| Urls.ParseJoinsBack | test.js:28 | Whatever the parser accepts splits into well-formed protocol, host and rest parts. The parts join back to exactly the parsed string. |
| Urls.ParseFormat | test.js:28 | Parsing a printed well-formed URL gives back its parts. With ParseJoinsBack, parsing and printing are mutually inverse. |
| Urls.BaseUrlIsOriginPrefix | test.js:26-34 | `getBaseUrl` is null exactly when the URL does not parse. Otherwise the base URL is a prefix of the URL, and it parses to the same protocol and host with nothing after the host. |
| Urls.BaseOfFormatted | test.js:26-34 | The base URL of a well-formed URL is its `protocol//host`. |
| Urls.SameBaseIffSameOrigin | test.js:52 | The string comparison of base URLs succeeds exactly when protocol and host both agree. |
| Urls.BaseIsFixedPoint | test.js:26-37 | A base URL is its own base URL. |
| Crawler.CrawlFromGrows | test.js:58-59 | One `crawl` call only appends to `urlsToTest`: the old list is a prefix of the new one. It only adds to `visitedUrls`. |
| Crawler.CrawlLinksGrows | test.js:70-83 | The links loop only appends to `urlsToTest` and only adds to `visitedUrls`. |
| Crawler.CrawlOutcome | test.js:45-87 | A call leaves both collections unchanged if and only if it is skipped: too deep, visited, at the cap, or on another site. An admitted call lists its URL next and marks it visited. A call whose fetch fails lists its URL and does nothing else. |
| Crawler.CrawlFromKeepsValid | test.js:45-59 | Every call preserves `Valid`. `visitedUrls` equals the set of listed URLs. No URL is listed twice. Every listed URL has base `BASE_DOMAIN`. The list never exceeds `MAX_PAGES_TO_CRAWL`. |
| Crawler.CrawlLinksKeepsValid | test.js:70-83 | The links loop preserves `Valid`. |
| Crawler.CrawlFromWithinDepth | test.js:45-77 | A call adds pages only when its depth is within the limit. Every page it adds is at most `MAX_CRAWL_DEPTH - depth` links from its URL. |
| Crawler.CrawlLinksWithinDepth | test.js:45-83 | The links loop at depth d adds pages only when d is within the limit. Each added page is at most `MAX_CRAWL_DEPTH - d` links from one of the links. |
| Crawler.CrawlLinksBeyondDepth | test.js:45-77 | Links followed beyond the depth limit change nothing. |
| Crawler.CrawlLinksAppend | test.js:70-83 | Links are crawled one after another, each from the state the earlier ones left. A link that is skipped or fails does not stop its siblings. |
| Crawler.SeedCrawl | test.js:44-93 | The crawl from the start URL at depth 0 ends in a valid state. Its list is non-empty exactly when the cap is at least 1, and then it starts with the start URL. Every listed page is within `MAX_CRAWL_DEPTH` links of the start URL. |
| Crawler.DepthZeroListsOnlySeed | test.js:45-77 | With depth limit 0 the list is exactly the start URL, whatever the start page links to. |
| Crawler.Children | test.js:70-77 | The pending calls pushed for a page's links are no more than its links. Each is one level deeper and targets one of the links. |
| Crawler.DrainChildren | test.js:70-83 | Running the pushed pending calls, then the rest of the stack, gives the links loop followed by the rest. |
| Crawler.WeightOfChildren | test.js:70-77 | The pushed calls weigh exactly the links loop's size. This bounds the stack loop. |
| Crawler.DrainSkip | test.js:45-55 | Dropping a skipped pending call leaves the outstanding work unchanged and lightens the stack. |
| Crawler.DrainFetchFailed | test.js:58-65 | An admitted pending call whose fetch fails lists its URL. What remains is the rest of the stack, and the stack gets lighter. |
| Crawler.DrainExpand | test.js:58-83 | An admitted pending call on a fetched page lists its URL and is replaced by the calls for its links. The outstanding work is unchanged, and the stack gets lighter. |
| Audit.RecordsForRows | test.js:107-138 | A successful audit with n issues gives exactly n rows, in issue order. Each row carries the URL, the document title and the issue's fields. A failed audit gives exactly one row for the URL. That row is `Error (Pa11y)` with `N/A` in every other column, and its message is the fixed prefix followed by the error's message. |
| Audit.AuditRecordsAppend | test.js:102 | Auditing a list in two parts gives the first part's rows followed by the second part's. |
| Audit.AuditRecordsStep | test.js:102-140 | One more audited URL appends exactly its own rows. |
| Audit.RowsOfAuditedUrl | test.js:102-140 | In the table for a repeat-free list, the rows of a listed URL are exactly its own audit's rows, and an unlisted URL has none. |
| Audit.RowsBelongToListedUrls | test.js:102-129 | Every row names a URL of the audited list. |
| Audit.NoRowsIffAllClean | test.js:107-145 | The table is empty exactly when every audit succeeded with no issues. |
| Pipeline.RowsOfCrawledUrl | test.js:93-140 | For the crawled list, each URL's rows are exactly its own audit's rows: one failure row, or one row per issue. |
| Pipeline.Session.constructor | test.js:21-23 | The three collections start empty. |
| Pipeline.Session.Crawl | test.js:44-88 | The stack loop leaves `visitedUrls` and `urlsToTest` exactly as the recursive `crawl` does. `allIssues` is untouched. |
| Pipeline.Session.Visit | test.js:45-83 | One pending call taken off the stack. If it fails a check of test.js:45 or 52, both collections stay as they were and the call is dropped. Otherwise its URL is added to `visitedUrls` and appended to `urlsToTest`. A failed fetch pushes nothing; a fetched page pushes one pending call per link, one level deeper, ahead of the rest. The outstanding work stays the same and the stack gets lighter. |
| Pipeline.Session.AuditAll | test.js:102-140 | After the loop, `allIssues` is the old rows followed by the rows of every listed URL, in list order. The crawl's collections are untouched. |
| Pipeline.Session.PushIssueRows | test.js:108-120 | The `forEach` appends exactly the rows of a successful audit, in issue order. |
| Pipeline.Session.Run | test.js:37-145 | An unparseable start URL ends the run with nothing crawled. Otherwise the state is the crawl's and is valid, and the list starts with the start URL. The "no URLs" exit happens exactly when the page cap is 0. The "no issues" exit happens exactly when the list is non-empty and the table is empty. The sheet holds every row, and export happens exactly when there are rows. |
| Scenarios.SourceStartUrlHasBase | test.js:8-41 | The shipped `START_URL` has base URL `https://example.com`, so the exit at test.js:38-41 is not taken. |
| Scenarios.InternalAndExternalLink | test.js:44-88 | A start page linking to a page on its own host and to another host, crawled with depth 1. The list is the start page and the internal page only. |
| Scenarios.DepthFirstMissesShallowPage | test.js:44-88 | Four distinct pages of one site: a start page linking to `a` then `b`, `a` linking to `b`, `b` linking to `c`, depth limit 2. The model lists exactly the start page, `a` and `b`. `c` is within two links of the start page, yet it is not listed. |
| Scenarios.ScenarioBases | test.js:26-52 | In that scenario, the start and internal pages share a base URL, and the other host's page does not. |
| Scenarios.TwoIssuesThenFailure | test.js:102-140 | Two distinct URLs: the audit of the first reports two issues and the audit of the second fails. The table is the two issue rows followed by the one failure row. |

## Left out

- Network access (test.js:61-67): the fetch and the HTTP status check
  are replaced by the `Web` map. The `{ timeout: 10000 }` option is not
  an option of Node's built-in `fetch` (the `node-fetch` import at
  test.js:3 is commented out), so the script sets no timeout either. A page that is
  absent, or maps to `None`, is one whose fetch threw or returned a
  non-ok status.
- HTML parsing with cheerio (test.js:68-71): each page's anchors arrive
  as a list of already resolved links. A `None` entry stands for an
  empty `href` or one whose resolution threw (test.js:72-81); it is
  skipped.
- Node's WHATWG `URL` parser (test.js:28, 50, 74): it is a foreign
  library. `Urls.Parse` is a simple stand-in for the shape
  `scheme:` `//` host rest, and it does not decide the same strings as
  `new URL`. It is looser:
  - its scheme may be any run of characters other than ':', '/', '?'
    and '#', where Node requires a letter followed by letters, digits,
    '+', '-' or '.';
  - its host may hold spaces and other code points Node forbids;
  - a port need not be numeric.

  It is also stricter: it rejects forms Node accepts for special
  schemes, such as `https:///x` or a URL without `//`. So a `START_URL`
  for which the script exits at test.js:38-41 can be one that
  `Session.Run` crawls, and the reverse. It also does none of Node's
  normalisation: lower-casing of scheme and host, dropping of default
  ports, user info, percent-encoding.

  `getBaseUrl`'s `null` for an unparseable URL and the `crawl` exit for
  one (caught at test.js:85-87) are both modelled as "not on this
  site".
- The un-awaited recursive call at test.js:77. An `async` function runs
  synchronously up to its first `await`, here the fetch at test.js:61.
  So the links loop at test.js:70-83 admits every admissible link of a
  page, in document order, before any of them is fetched and expanded.
  Which admitted page is expanded next depends on which fetch completes
  first, so a page can still be admitted deeper than its shortest link
  distance when a longer path's fetches finish sooner. The call at
  test.js:93 returns once the start page's links loop is done, and
  deeper pages are added while the audit loop at test.js:102 runs,
  depending on fetch timing. The model instead runs every call to
  completion before the next (depth first, document order), and proves
  its invariants for that order. This changes which pages are listed,
  not only their order, even when the page cap is not reached.
  `Scenarios.DepthFirstMissesShallowPage` is an example: a start page
  links to `a` and then `b`, `a` links to `b`, `b` links to `c`, and the
  depth limit is 2. The model reaches `b` through `a` at depth 2, drops
  its link to `c` as depth 3, and lists the start page, `a` and `b`. The
  script admits `a` and `b` at depth 1 and then `c` at depth 2 from `b`.
- The pre-check at test.js:76 repeats conditions that the called
  `crawl` checks again at test.js:45 and 52 on the same state, so it is
  not modelled separately.
- pa11y (test.js:105): it is an input function from URL to
  `AuditResult`. A thrown audit is `Failure` with its message.
  `results.issues` being absent and being empty are the same case (no
  rows). A missing `documentTitle` is not distinguished from a string.
- `JSON.stringify(issue.runnerExtras)` (test.js:118): the issue carries
  the already serialised text.
- Spreadsheet building and writing (test.js:147-158), including its
  error handling: `Run` ends with the rows that would be written.
- Console output, and `process.exit(1)` at test.js:40, which becomes
  the `InvalidStartUrl` outcome.
