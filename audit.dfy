/** The per-URL audit of `runAccessibilityCrawlAndExport` (test.js:102-140):
    what each pa11y outcome turns into in the flat issue table. The
    imperative loop that builds the table is `Pipeline.Session.AuditAll`;
    this module states what it builds. */
module Audit {
  import opened Urls

  /** One element of `results.issues`. `runnerExtras` is the text that
      `JSON.stringify(issue.runnerExtras)` produced (test.js:118). */
  datatype Issue = Issue(
    issueType: string,
    code: string,
    message: string,
    context: string,
    selector: string,
    runner: string,
    runnerExtras: string)

  /** What `await pa11y(url, PA11Y_OPTIONS)` did (test.js:105): resolved
      with a document title and its issues, or threw with `error.message`. */
  datatype AuditResult =
    | Success(documentTitle: string, issues: seq<Issue>)
    | Failure(errorMessage: string)

  /** One row of `allIssues`, the nine columns of test.js:110-118. */
  datatype IssueRecord = IssueRecord(
    testedUrl: Url,
    documentTitle: string,
    issueType: string,
    wcagCode: string,
    message: string,
    context: string,
    selector: string,
    runner: string,
    runnerExtras: string)

  /** The sentinel of test.js:130-137. */
  const NotApplicable := "N/A"

  /** The issue type of a failed audit (test.js:131). */
  const AuditErrorType := "Error (Pa11y)"

  /** The text placed before `error.message` (test.js:133), "could not test
      the page: ". */
  const AuditErrorPrefix := "Nepodařilo se otestovat stránku: "

  /** The row pushed for one issue of a successful audit (test.js:109-119). */
  function IssueRow(url: Url, title: string, issue: Issue): IssueRecord {
    IssueRecord(url, title, issue.issueType, issue.code, issue.message,
                issue.context, issue.selector, issue.runner, issue.runnerExtras)
  }

  /** The issue a row was built from: the seven issue columns. */
  function IssueOf(r: IssueRecord): Issue {
    Issue(r.issueType, r.wcagCode, r.message, r.context, r.selector, r.runner, r.runnerExtras)
  }

  /** The one row pushed for a failed audit (test.js:128-138). */
  function FailureRow(url: Url, errorMessage: string): IssueRecord {
    IssueRecord(url, NotApplicable, AuditErrorType, NotApplicable,
                AuditErrorPrefix + errorMessage, NotApplicable, NotApplicable,
                NotApplicable, NotApplicable)
  }

  /** A row that says the audit of its URL failed: the audit-error type and
      the sentinel in every column but the URL and the message. */
  predicate IsFailureRow(r: IssueRecord) {
    && r.issueType == AuditErrorType
    && r.documentTitle == NotApplicable
    && r.wcagCode == NotApplicable
    && r.context == NotApplicable
    && r.selector == NotApplicable
    && r.runner == NotApplicable
    && r.runnerExtras == NotApplicable
  }

  /** The rows test.js:107-138 push for one audited URL. */
  function RecordsFor(url: Url, result: AuditResult): seq<IssueRecord> {
    match result
    case Success(title, issues) =>
      seq(|issues|, i requires 0 <= i < |issues| => IssueRow(url, title, issues[i]))
    case Failure(message) =>
      [FailureRow(url, message)]
  }

  /** The rows one audit contributes. A success contributes one row per
      issue, in issue order, each carrying the URL and the document title
      and the issue unchanged (none when there are no issues, test.js:107).
      A failure contributes exactly one failure row for the URL, whose
      message ends with the error's message. */
  lemma RecordsForRows(url: Url, result: AuditResult)
    ensures var rs := RecordsFor(url, result);
      && (forall i :: 0 <= i < |rs| ==> rs[i].testedUrl == url)
      && (result.Success? ==>
            && |rs| == |result.issues|
            && forall i :: 0 <= i < |rs| ==>
                 rs[i].documentTitle == result.documentTitle && IssueOf(rs[i]) == result.issues[i])
      && (result.Failure? ==>
            && |rs| == 1
            && IsFailureRow(rs[0])
            && rs[0].message == AuditErrorPrefix + result.errorMessage)
  {
  }

  /** One more issue adds its row at the end. */
  lemma IssueRowsStep(url: Url, title: string, issues: seq<Issue>, j: nat)
    requires j < |issues|
    ensures RecordsFor(url, Success(title, issues[..j + 1])) ==
            RecordsFor(url, Success(title, issues[..j])) + [IssueRow(url, title, issues[j])]
  {
    var longer := RecordsFor(url, Success(title, issues[..j + 1]));
    var shorter := RecordsFor(url, Success(title, issues[..j]));
    assert forall k :: 0 <= k < j ==> longer[k] == shorter[k];
  }

  /** `allIssues` after the loop of test.js:102-140 over `urls`, from empty:
      each URL's rows, URL after URL. */
  function AuditRecords(urls: seq<Url>, audit: Url -> AuditResult): seq<IssueRecord> {
    if urls == [] then []
    else RecordsFor(urls[0], audit(urls[0])) + AuditRecords(urls[1..], audit)
  }

  /** Auditing a list in two parts gives the rows of the first part and then
      those of the second: rows are grouped by URL in list order. */
  lemma {:induction false} AuditRecordsAppend(a: seq<Url>, b: seq<Url>, audit: Url -> AuditResult)
    ensures AuditRecords(a + b, audit) == AuditRecords(a, audit) + AuditRecords(b, audit)
  {
    if a == [] {
      assert a + b == b;
    } else {
      assert (a + b)[0] == a[0];
      assert (a + b)[1..] == a[1..] + b;
      AuditRecordsAppend(a[1..], b, audit);
    }
  }

  /** One more URL adds its rows at the end. */
  lemma AuditRecordsStep(urls: seq<Url>, i: nat, audit: Url -> AuditResult)
    requires i < |urls|
    ensures AuditRecords(urls[..i + 1], audit) ==
            AuditRecords(urls[..i], audit) + RecordsFor(urls[i], audit(urls[i]))
  {
    assert urls[..i + 1] == urls[..i] + [urls[i]];
    AuditRecordsAppend(urls[..i], [urls[i]], audit);
    assert AuditRecords([urls[i]], audit) == RecordsFor(urls[i], audit(urls[i])) by {
      assert [urls[i]][1..] == [];
    }
  }

  /** The rows of `rs` whose tested URL is `u`, in order. */
  function RowsOf(rs: seq<IssueRecord>, u: Url): seq<IssueRecord> {
    if rs == [] then []
    else (if rs[0].testedUrl == u then [rs[0]] else []) + RowsOf(rs[1..], u)
  }

  lemma {:induction false} RowsOfAppend(a: seq<IssueRecord>, b: seq<IssueRecord>, u: Url)
    ensures RowsOf(a + b, u) == RowsOf(a, u) + RowsOf(b, u)
  {
    if a == [] {
      assert a + b == b;
    } else {
      assert (a + b)[0] == a[0];
      assert (a + b)[1..] == a[1..] + b;
      RowsOfAppend(a[1..], b, u);
    }
  }

  /** Rows that all carry `u` are all kept; rows none of which carries `u`
      are all dropped. */
  lemma {:induction false} RowsOfUniform(rs: seq<IssueRecord>, w: Url, u: Url)
    requires forall i :: 0 <= i < |rs| ==> rs[i].testedUrl == w
    ensures RowsOf(rs, u) == if w == u then rs else []
  {
    if rs != [] {
      RowsOfUniform(rs[1..], w, u);
    }
  }

  /** When no URL is listed twice (as the crawl guarantees), the rows for a
      URL `u` are exactly the rows of its own audit: one row per issue, in
      order, when it succeeded, and exactly one failure row when it failed;
      none when `u` is not listed. No failure stops the URLs after it from
      being audited. */
  lemma {:induction false} RowsOfAuditedUrl(urls: seq<Url>, audit: Url -> AuditResult, u: Url)
    requires Distinct(urls)
    ensures RowsOf(AuditRecords(urls, audit), u) ==
            if u in urls then RecordsFor(u, audit(u)) else []
  {
    if urls != [] {
      var first := RecordsFor(urls[0], audit(urls[0]));
      RowsOfAppend(first, AuditRecords(urls[1..], audit), u);
      RowsOfUniform(first, urls[0], u);
      RowsOfAuditedUrl(urls[1..], audit, u);
      if urls[0] == u {
        assert u !in urls[1..] by {
          forall j | 0 <= j < |urls[1..]| ensures urls[1..][j] != u {
            assert urls[1..][j] == urls[j + 1];
          }
        }
      }
    }
  }

  /** Every row belongs to a listed URL. */
  lemma {:induction false} RowsBelongToListedUrls(urls: seq<Url>, audit: Url -> AuditResult)
    ensures forall i :: 0 <= i < |AuditRecords(urls, audit)| ==> AuditRecords(urls, audit)[i].testedUrl in urls
  {
    if urls != [] {
      RowsBelongToListedUrls(urls[1..], audit);
      var first: seq<IssueRecord> := RecordsFor(urls[0], audit(urls[0]));
      var rest: seq<IssueRecord> := AuditRecords(urls[1..], audit);
      forall i | 0 <= i < |first + rest| ensures (first + rest)[i].testedUrl in urls {
        if i >= |first| {
          assert (first + rest)[i] == rest[i - |first|];
        }
      }
    }
  }

  /** No row at all (test.js:142) exactly when every audit succeeded and
      reported no issue: a failed audit always leaves a row. */
  lemma {:induction false} NoRowsIffAllClean(urls: seq<Url>, audit: Url -> AuditResult)
    ensures AuditRecords(urls, audit) == [] <==>
            forall i :: 0 <= i < |urls| ==> audit(urls[i]).Success? && audit(urls[i]).issues == []
  {
    if urls != [] {
      NoRowsIffAllClean(urls[1..], audit);
      if AuditRecords(urls, audit) == [] {
        forall i | 0 <= i < |urls|
          ensures audit(urls[i]).Success? && audit(urls[i]).issues == []
        {
          if i > 0 {
            assert urls[i] == urls[1..][i - 1];
          }
        }
      }
    }
  }
}
