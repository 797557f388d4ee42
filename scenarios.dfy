/** Concrete runs: the start URL test.js ships with, and small sites and
    audit outcomes on which the crawl and the audit table can be worked
    out by hand. */
module Scenarios {
  import opened Wrappers
  import opened Urls
  import opened Crawler
  import opened Audit
  import opened Pipeline

  /** START_URL has a base URL, so the exit of test.js:38-41 is not taken
      with the shipped configuration; its base is the URL itself. */
  lemma SourceStartUrlHasBase()
    ensures GetBaseUrl(SourceConfig.startUrl) == Some("https://example.com")
  {
    var p := UrlParts("https:", "example.com", "");
    StartUrlWellFormed();
    StartUrlFormat();
    BaseOfFormatted(p);
    assert Origin(p) == "https://example.com";
  }

  /** The parts of START_URL are well formed. */
  lemma StartUrlWellFormed()
    ensures WellFormed(UrlParts("https:", "example.com", ""))
  {
  }

  /** The parts of START_URL join back to it. */
  lemma StartUrlFormat()
    ensures Format(UrlParts("https:", "example.com", "")) == SourceConfig.startUrl
  {
  }

  /** A seed page linking to an internal page and to a page on another
      host, crawled with depth limit 1 and cap 10 (for instance
      `https://example.com`, `https://example.com/about` and
      `https://other.com`): the list is the seed and the internal page,
      never the other host. */
  lemma InternalAndExternalLink(protocol: string, host: string, path: string, otherHost: string)
    requires WellFormed(UrlParts(protocol, host, path)) && path != ""
    requires WellFormed(UrlParts(protocol, otherHost, "")) && otherHost != host
    ensures
      var seed := Format(UrlParts(protocol, host, ""));
      var internal := Format(UrlParts(protocol, host, path));
      var external := Format(UrlParts(protocol, otherHost, ""));
      var web: Web := map[seed := Some([Some(internal), Some(external)]), internal := Some([Some(seed)])];
      CrawlFrom(Limits(1, 10), seed, web, seed, 0, Empty).found == [seed, internal]
  {
    ScenarioBases(protocol, host, path, otherHost);
    var seed := Format(UrlParts(protocol, host, ""));
    var internal := Format(UrlParts(protocol, host, path));
    var external := Format(UrlParts(protocol, otherHost, ""));
    var web: Web := map[seed := Some([Some(internal), Some(external)]), internal := Some([Some(seed)])];
    CrawlTwoLinks(seed, internal, external, web);
  }

  /** The crawl of `InternalAndExternalLink`, for any three URLs with those
      base URLs and any site map with those two pages. */
  lemma CrawlTwoLinks(seed: Url, internal: Url, external: Url, web: Web)
    requires GetBaseUrl(seed) == Some(seed) && GetBaseUrl(internal) == Some(seed)
    requires GetBaseUrl(external) != Some(seed) && internal != seed
    requires seed in web && web[seed] == Some([Some(internal), Some(external)])
    requires internal in web && web[internal] == Some([Some(seed)])
    ensures CrawlFrom(Limits(1, 10), seed, web, seed, 0, Empty).found == [seed, internal]
  {
    var lim := Limits(1, 10);
    var s2 := Admit(Admit(Empty, seed), internal);
    SeedLinks(seed, internal, external, web);
    assert !Skipped(lim, seed, Empty, seed, 0);
    CrawlFetched(lim, seed, web, seed, 0, Empty, [Some(internal), Some(external)]);
    assert CrawlFrom(lim, seed, web, seed, 0, Empty) == s2;
    FoundOfAdmits(seed, internal, seed);
  }

  /** In `CrawlTwoLinks`, the seed's two links add the internal page only. */
  lemma SeedLinks(seed: Url, internal: Url, external: Url, web: Web)
    requires GetBaseUrl(seed) == Some(seed) && GetBaseUrl(internal) == Some(seed)
    requires GetBaseUrl(external) != Some(seed) && internal != seed
    requires internal in web && web[internal] == Some([Some(seed)])
    ensures CrawlLinks(Limits(1, 10), seed, web, [Some(internal), Some(external)], 1, Admit(Empty, seed)) ==
            Admit(Admit(Empty, seed), internal)
  {
    VisitInternal(seed, internal, web);
    SkipExternal(seed, internal, external, web);
    assert [Some(internal), Some(external)][1..] == [Some(external)];
  }

  /** In `CrawlTwoLinks`, the internal page is listed at depth 1 and its
      link back to the seed lies beyond the depth limit. */
  lemma VisitInternal(seed: Url, internal: Url, web: Web)
    requires GetBaseUrl(internal) == Some(seed) && internal != seed
    requires internal in web && web[internal] == Some([Some(seed)])
    ensures CrawlFrom(Limits(1, 10), seed, web, internal, 1, Admit(Empty, seed)) ==
            Admit(Admit(Empty, seed), internal)
  {
    var s1 := Admit(Empty, seed);
    assert !Skipped(Limits(1, 10), seed, s1, internal, 1);
    CrawlFetched(Limits(1, 10), seed, web, internal, 1, s1, [Some(seed)]);
    CrawlLinksBeyondDepth(Limits(1, 10), seed, web, [Some(seed)], 2, Admit(s1, internal));
  }

  /** In `CrawlTwoLinks`, the link to the other host changes nothing. */
  lemma SkipExternal(seed: Url, internal: Url, external: Url, web: Web)
    requires GetBaseUrl(external) != Some(seed)
    ensures var s2 := Admit(Admit(Empty, seed), internal);
      CrawlLinks(Limits(1, 10), seed, web, [Some(external)], 1, s2) == s2
  {
    var s2 := Admit(Admit(Empty, seed), internal);
    assert [Some(external)][1..] == [];
    assert CrawlFrom(Limits(1, 10), seed, web, external, 1, s2) == s2;
  }

  /** A start page linking to `a` and then `b`, where `a` also links to
      `b` and `b` links to `c`, all four pages on one site (for instance
      `https://example.com`, `/a`, `/b` and `/c` under it), crawled with
      depth limit 2 and cap 10. In the depth-first order the model runs,
      `b` is first reached through `a` at depth 2, so its link to `c` would
      be depth 3 and is dropped; when the start page's own link to `b`
      comes up, `b` is already visited. The list is the start page, `a`
      and `b`: `c`, only two links from the start page, is not listed. */
  lemma DepthFirstMissesShallowPage(protocol: string, host: string, pa: string, pb: string, pc: string)
    requires WellFormed(UrlParts(protocol, host, pa)) && WellFormed(UrlParts(protocol, host, pb))
    requires WellFormed(UrlParts(protocol, host, pc))
    requires pa != "" && pb != "" && pc != "" && pa != pb && pa != pc && pb != pc
    ensures
      var seed := Format(UrlParts(protocol, host, ""));
      var a := Format(UrlParts(protocol, host, pa));
      var b := Format(UrlParts(protocol, host, pb));
      var c := Format(UrlParts(protocol, host, pc));
      var web: Web := map[seed := Some([Some(a), Some(b)]), a := Some([Some(b)]), b := Some([Some(c)])];
      && CrawlFrom(Limits(2, 10), seed, web, seed, 0, Empty).found == [seed, a, b]
      && c !in CrawlFrom(Limits(2, 10), seed, web, seed, 0, Empty).found
      && ReachableWithin(web, seed, c, 2)
  {
    SameSitePages(protocol, host, pa, pb, pc);
    var seed := Format(UrlParts(protocol, host, ""));
    var a := Format(UrlParts(protocol, host, pa));
    var b := Format(UrlParts(protocol, host, pb));
    var c := Format(UrlParts(protocol, host, pc));
    ShallowPageWeb(seed, a, b, c);
    MissesShallowPage(seed, a, b, c, map[seed := Some([Some(a), Some(b)]), a := Some([Some(b)]), b := Some([Some(c)])]);
  }

  /** The site map of `DepthFirstMissesShallowPage` holds the three pages. */
  lemma ShallowPageWeb(seed: Url, a: Url, b: Url, c: Url)
    requires a != seed && b != seed && a != b
    ensures var web: Web := map[seed := Some([Some(a), Some(b)]), a := Some([Some(b)]), b := Some([Some(c)])];
      && seed in web && web[seed] == Some([Some(a), Some(b)])
      && a in web && web[a] == Some([Some(b)])
      && b in web && web[b] == Some([Some(c)])
  {
  }

  /** The four URLs of `DepthFirstMissesShallowPage` all have the start
      page as base URL, and they are pairwise distinct. */
  lemma SameSitePages(protocol: string, host: string, pa: string, pb: string, pc: string)
    requires WellFormed(UrlParts(protocol, host, pa)) && WellFormed(UrlParts(protocol, host, pb))
    requires WellFormed(UrlParts(protocol, host, pc))
    requires pa != "" && pb != "" && pc != "" && pa != pb && pa != pc && pb != pc
    ensures
      var seed := Format(UrlParts(protocol, host, ""));
      var a := Format(UrlParts(protocol, host, pa));
      var b := Format(UrlParts(protocol, host, pb));
      var c := Format(UrlParts(protocol, host, pc));
      && GetBaseUrl(seed) == Some(seed) && GetBaseUrl(a) == Some(seed)
      && GetBaseUrl(b) == Some(seed) && GetBaseUrl(c) == Some(seed)
      && a != seed && b != seed && c != seed && a != b && a != c && b != c
  {
    var p := UrlParts(protocol, host, "");
    var pA := UrlParts(protocol, host, pa);
    var pB := UrlParts(protocol, host, pb);
    var pC := UrlParts(protocol, host, pc);
    assert WellFormed(p);
    BaseOfFormatted(p);
    BaseOfFormatted(pA);
    BaseOfFormatted(pB);
    BaseOfFormatted(pC);
    assert Format(p) == Origin(p) == Origin(pA) == Origin(pB) == Origin(pC);
    if Format(pA) == Format(p) { FormatInjective(pA, p); }
    if Format(pB) == Format(p) { FormatInjective(pB, p); }
    if Format(pC) == Format(p) { FormatInjective(pC, p); }
    if Format(pA) == Format(pB) { FormatInjective(pA, pB); }
    if Format(pA) == Format(pC) { FormatInjective(pA, pC); }
    if Format(pB) == Format(pC) { FormatInjective(pB, pC); }
  }

  /** The crawl of `DepthFirstMissesShallowPage`, for any four distinct URLs
      of one site and any site map with those three pages. */
  lemma MissesShallowPage(seed: Url, a: Url, b: Url, c: Url, web: Web)
    requires GetBaseUrl(seed) == Some(seed) && GetBaseUrl(a) == Some(seed) && GetBaseUrl(b) == Some(seed)
    requires GetBaseUrl(c) == Some(seed)
    requires a != seed && b != seed && b != a && c != seed && c != a && c != b
    requires seed in web && web[seed] == Some([Some(a), Some(b)])
    requires a in web && web[a] == Some([Some(b)])
    requires b in web && web[b] == Some([Some(c)])
    ensures CrawlFrom(Limits(2, 10), seed, web, seed, 0, Empty).found == [seed, a, b]
    ensures c !in CrawlFrom(Limits(2, 10), seed, web, seed, 0, Empty).found
    ensures ReachableWithin(web, seed, c, 2)
  {
    ListsSeedAndLinks(seed, a, b, c, web);
    assert c !in [seed, a, b];
    assert ReachableWithin(web, b, c, 1) by {
      assert Links(web, b) == [Some(c)];
      assert ReachableWithin(web, c, c, 0);
    }
    assert Links(web, seed) == [Some(a), Some(b)];
  }

  /** In `MissesShallowPage`, the crawl lists the start page,
      `a` and `b`. */
  lemma ListsSeedAndLinks(seed: Url, a: Url, b: Url, c: Url, web: Web)
    requires GetBaseUrl(seed) == Some(seed) && GetBaseUrl(a) == Some(seed) && GetBaseUrl(b) == Some(seed)
    requires a != seed && b != seed && b != a
    requires seed in web && web[seed] == Some([Some(a), Some(b)])
    requires a in web && web[a] == Some([Some(b)])
    requires b in web && web[b] == Some([Some(c)])
    ensures CrawlFrom(Limits(2, 10), seed, web, seed, 0, Empty).found == [seed, a, b]
  {
    var lim := Limits(2, 10);
    var s1 := Admit(Empty, seed);
    var s3 := Admit(Admit(s1, a), b);
    ThroughFirstLink(seed, a, b, c, web);
    assert CrawlLinks(lim, seed, web, [Some(b)], 1, s3) == s3 by {
      assert [Some(b)][1..] == [];
      assert Skipped(lim, seed, s3, b, 1);
    }
    assert CrawlLinks(lim, seed, web, [Some(a), Some(b)], 1, s1) == s3 by {
      assert [Some(a), Some(b)][1..] == [Some(b)];
    }
    assert !Skipped(lim, seed, Empty, seed, 0);
    CrawlFetched(lim, seed, web, seed, 0, Empty, [Some(a), Some(b)]);
    FoundOfAdmits(seed, a, b);
  }

  /** The list after admitting `u`, `v` and `w` in turn from the empty state. */
  lemma FoundOfAdmits(u: Url, v: Url, w: Url)
    ensures Admit(Admit(Empty, u), v).found == [u, v]
    ensures Admit(Admit(Admit(Empty, u), v), w).found == [u, v, w]
  {
  }


  /** In `MissesShallowPage`, the start page's first link lists
      `a` and then `b` at depth 2, and nothing below `b`. */
  lemma ThroughFirstLink(seed: Url, a: Url, b: Url, c: Url, web: Web)
    requires GetBaseUrl(a) == Some(seed) && GetBaseUrl(b) == Some(seed)
    requires a != seed && b != seed && b != a
    requires a in web && web[a] == Some([Some(b)])
    requires b in web && web[b] == Some([Some(c)])
    ensures var s1 := Admit(Empty, seed);
      CrawlFrom(Limits(2, 10), seed, web, a, 1, s1) == Admit(Admit(s1, a), b)
  {
    var lim := Limits(2, 10);
    var s1 := Admit(Empty, seed);
    var s2 := Admit(s1, a);
    var s3 := Admit(s2, b);
    assert !Skipped(lim, seed, s2, b, 2);
    CrawlFetched(lim, seed, web, b, 2, s2, [Some(c)]);
    CrawlLinksBeyondDepth(lim, seed, web, [Some(c)], 3, s3);
    assert CrawlLinks(lim, seed, web, [Some(b)], 2, s2) == s3 by {
      assert [Some(b)][1..] == [];
    }
    assert !Skipped(lim, seed, s1, a, 1);
    CrawlFetched(lim, seed, web, a, 1, s1, [Some(b)]);
  }

  /** The base URLs in `InternalAndExternalLink`: the seed and the
      internal page share the seed as base, the other host does not. */
  lemma ScenarioBases(protocol: string, host: string, path: string, otherHost: string)
    requires WellFormed(UrlParts(protocol, host, path)) && path != ""
    requires WellFormed(UrlParts(protocol, otherHost, "")) && otherHost != host
    ensures var seed := Format(UrlParts(protocol, host, ""));
      && GetBaseUrl(seed) == Some(seed)
      && GetBaseUrl(Format(UrlParts(protocol, host, path))) == Some(seed)
      && GetBaseUrl(Format(UrlParts(protocol, otherHost, ""))) != Some(seed)
      && Format(UrlParts(protocol, host, path)) != seed
  {
    var p := UrlParts(protocol, host, "");
    var q := UrlParts(protocol, host, path);
    var o := UrlParts(protocol, otherHost, "");
    BaseOfFormatted(p);
    BaseOfFormatted(q);
    BaseOfFormatted(o);
    assert Format(p) == Origin(p) && Origin(q) == Origin(p);
    if Format(q) == Format(p) {
      FormatInjective(p, q);
    }
    if Origin(o) == Format(p) {
      FormatInjective(o, p);
    }
  }

  /** The audit of A reports two issues and the audit of B fails: the table
      holds the two rows of A and then the one failure row of B. */
  lemma TwoIssuesThenFailure(a: Url, b: Url, title: string, i1: Issue, i2: Issue, error: string)
    requires a != b
    ensures
      var audit := (u: Url) => if u == a then Success(title, [i1, i2]) else Failure(error);
      AuditRecords([a, b], audit) ==
          [IssueRow(a, title, i1), IssueRow(a, title, i2), FailureRow(b, error)]
  {
    var audit := (u: Url) => if u == a then Success(title, [i1, i2]) else Failure(error);
    assert [a, b][1..] == [b];
    assert AuditRecords([b], audit) == [FailureRow(b, error)];
    var rowsA := RecordsFor(a, audit(a));
    assert rowsA == [IssueRow(a, title, i1), IssueRow(a, title, i2)];
  }
}
