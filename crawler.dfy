/** The domain-bounded crawl of test.js:44-88 as a specification: the
    recursion of `crawl`, serialized as if every recursive call were awaited,
    written as two mutually recursive functions over the crawl state; the
    properties it keeps; and the worklist form that the imperative crawl in
    module Pipeline follows. */
module Crawler {
  import opened Wrappers
  import opened Urls

  /** MAX_CRAWL_DEPTH (test.js:9) and MAX_PAGES_TO_CRAWL (test.js:18). */
  datatype Limits = Limits(maxDepth: nat, maxPages: nat)

  /** The site as the crawler sees it. For each URL: None when `fetch`
      throws or the response is not ok, otherwise the anchors of the page in
      document order, each the absolute URL that `new URL(href, page).href`
      yields, or None when the href is empty or does not resolve. A URL that
      is not a key fails to fetch. */
  type Web = map<Url, Option<seq<Option<Url>>>>

  function Fetch(web: Web, u: Url): Option<seq<Option<Url>>> {
    if u in web then web[u] else None
  }

  /** The anchors followed from `u`: none when its fetch fails. */
  function Links(web: Web, u: Url): seq<Option<Url>> {
    match Fetch(web, u)
    case None => []
    case Some(links) => links
  }

  /** `visitedUrls` (test.js:21) and `urlsToTest` (test.js:22). */
  datatype CrawlState = CrawlState(visited: set<Url>, found: seq<Url>)

  const Empty := CrawlState({}, [])

  function Elems(s: seq<Url>): set<Url> {
    set x | x in s
  }

  /** What the crawl keeps true of its state: the visited set is exactly the
      set of listed URLs, the list has no repeats, every listed URL has the
      base URL `base`, and the list is within the page cap. */
  ghost predicate Valid(lim: Limits, base: string, st: CrawlState) {
    && st.visited == Elems(st.found)
    && Distinct(st.found)
    && (forall i :: 0 <= i < |st.found| ==> GetBaseUrl(st.found[i]) == Some(base))
    && |st.found| <= lim.maxPages
  }

  /** The early returns of `crawl`: too deep, already visited, cap reached
      (test.js:45), or on another site, which includes an unparseable URL
      (test.js:50-55). */
  predicate Skipped(lim: Limits, base: string, st: CrawlState, u: Url, d: nat) {
    d > lim.maxDepth || u in st.visited || |st.found| >= lim.maxPages ||
    GetBaseUrl(u) != Some(base)
  }

  /** The paired `visitedUrls.add` and `urlsToTest.push` (test.js:58-59). */
  function Admit(st: CrawlState, u: Url): CrawlState {
    CrawlState(st.visited + {u}, st.found + [u])
  }

  /** Depth levels still open at depth `d`; it bounds the recursion. */
  function Budget(lim: Limits, d: nat): nat {
    if d <= lim.maxDepth then lim.maxDepth + 1 - d else 0
  }

  /** `crawl(u, d)` run to completion from state `st`. */
  function CrawlFrom(lim: Limits, base: string, web: Web, u: Url, d: nat, st: CrawlState): CrawlState
    decreases Budget(lim, d), 0
  {
    if Skipped(lim, base, st, u, d) then st
    else
      var admitted := Admit(st, u);
      match Fetch(web, u)
      case None => admitted
      case Some(links) => CrawlLinks(lim, base, web, links, d + 1, admitted)
  }

  /** The `$('a').each` loop of test.js:70-83: crawl every resolved link at
      depth `d`, in document order, each from the state the previous one
      left. */
  function CrawlLinks(lim: Limits, base: string, web: Web, links: seq<Option<Url>>, d: nat, st: CrawlState): CrawlState
    decreases Budget(lim, d), |links|
  {
    if links == [] then st
    else
      var next := match links[0]
        case None => st
        case Some(v) => CrawlFrom(lim, base, web, v, d, st);
      CrawlLinks(lim, base, web, links[1..], d, next)
  }

  /** A call that passes the checks on a fetched page is its links loop,
      run one level deeper from the state that lists the page. */
  lemma CrawlFetched(lim: Limits, base: string, web: Web, u: Url, d: nat, st: CrawlState, links: seq<Option<Url>>)
    requires !Skipped(lim, base, st, u, d) && Fetch(web, u) == Some(links)
    ensures CrawlFrom(lim, base, web, u, d, st) == CrawlLinks(lim, base, web, links, d + 1, Admit(st, u))
  {
  }

  /** The crawl only ever appends: the old list is a prefix of the new one
      and the visited set only grows. */
  lemma {:induction false} CrawlFromGrows(lim: Limits, base: string, web: Web, u: Url, d: nat, st: CrawlState)
    ensures st.found <= CrawlFrom(lim, base, web, u, d, st).found
    ensures st.visited <= CrawlFrom(lim, base, web, u, d, st).visited
    decreases Budget(lim, d), 0
  {
    if !Skipped(lim, base, st, u, d) {
      var admitted := Admit(st, u);
      match Fetch(web, u)
      case None =>
      case Some(links) => CrawlLinksGrows(lim, base, web, links, d + 1, admitted);
    }
  }

  lemma {:induction false} CrawlLinksGrows(lim: Limits, base: string, web: Web, links: seq<Option<Url>>, d: nat, st: CrawlState)
    ensures st.found <= CrawlLinks(lim, base, web, links, d, st).found
    ensures st.visited <= CrawlLinks(lim, base, web, links, d, st).visited
    decreases Budget(lim, d), |links|
  {
    if links != [] {
      var next := match links[0]
        case None => st
        case Some(v) => CrawlFrom(lim, base, web, v, d, st);
      if links[0].Some? {
        CrawlFromGrows(lim, base, web, links[0].value, d, st);
      }
      CrawlLinksGrows(lim, base, web, links[1..], d, next);
    }
  }

  /** One call of `crawl`: it leaves the state unchanged exactly when it is
      skipped (test.js:45-46, 52-55); otherwise its URL is the next one
      listed and visited (test.js:58-59), and when the fetch fails that is
      all it does (test.js:62-65, 85-87). */
  lemma CrawlOutcome(lim: Limits, base: string, web: Web, u: Url, d: nat, st: CrawlState)
    ensures CrawlFrom(lim, base, web, u, d, st) == st <==> Skipped(lim, base, st, u, d)
    ensures !Skipped(lim, base, st, u, d) ==>
              st.found + [u] <= CrawlFrom(lim, base, web, u, d, st).found &&
              u in CrawlFrom(lim, base, web, u, d, st).visited
    ensures !Skipped(lim, base, st, u, d) && Fetch(web, u).None? ==>
              CrawlFrom(lim, base, web, u, d, st) == Admit(st, u)
  {
    if !Skipped(lim, base, st, u, d) {
      var admitted := Admit(st, u);
      match Fetch(web, u)
      case None =>
      case Some(links) => CrawlLinksGrows(lim, base, web, links, d + 1, admitted);
    }
  }

  /** Every call of `crawl` keeps `Valid`: no URL is listed twice, the
      visited set stays the set of listed URLs, every listed URL is on the
      site, and the list never exceeds the cap. */
  lemma {:induction false} CrawlFromKeepsValid(lim: Limits, base: string, web: Web, u: Url, d: nat, st: CrawlState)
    requires Valid(lim, base, st)
    ensures Valid(lim, base, CrawlFrom(lim, base, web, u, d, st))
    decreases Budget(lim, d), 0
  {
    if !Skipped(lim, base, st, u, d) {
      var admitted := Admit(st, u);
      assert admitted.visited == Elems(admitted.found) by {
        assert Elems(st.found + [u]) == Elems(st.found) + {u};
      }
      assert Valid(lim, base, admitted);
      match Fetch(web, u)
      case None =>
      case Some(links) => CrawlLinksKeepsValid(lim, base, web, links, d + 1, admitted);
    }
  }

  lemma {:induction false} CrawlLinksKeepsValid(lim: Limits, base: string, web: Web, links: seq<Option<Url>>, d: nat, st: CrawlState)
    requires Valid(lim, base, st)
    ensures Valid(lim, base, CrawlLinks(lim, base, web, links, d, st))
    decreases Budget(lim, d), |links|
  {
    if links != [] {
      var next := match links[0]
        case None => st
        case Some(v) => CrawlFrom(lim, base, web, v, d, st);
      if links[0].Some? {
        CrawlFromKeepsValid(lim, base, web, links[0].value, d, st);
      }
      CrawlLinksKeepsValid(lim, base, web, links[1..], d, next);
    }
  }

  /** `to` is reached from `from` by following at most `k` links. */
  ghost predicate ReachableWithin(web: Web, from: Url, to: Url, k: nat)
    decreases k, 0
  {
    from == to || (k > 0 && ReachableFromAny(web, Links(web, from), to, k - 1))
  }

  /** `to` is reached from one of `links` by following at most `k` links. */
  ghost predicate ReachableFromAny(web: Web, links: seq<Option<Url>>, to: Url, k: nat)
    decreases k, 1
  {
    exists v :: Some(v) in links && ReachableWithin(web, v, to, k)
  }

  /** Every element of `s` from index `start` on is reached from `u` by
      following at most `k` links. */
  ghost predicate ListedWithin(web: Web, u: Url, s: seq<Url>, start: nat, k: nat) {
    forall i :: start <= i < |s| ==> ReachableWithin(web, u, s[i], k)
  }

  /** Every element of `s` from index `start` on is reached from one of
      `links` by following at most `k` links. */
  ghost predicate ListedWithinAny(web: Web, links: seq<Option<Url>>, s: seq<Url>, start: nat, k: nat) {
    forall i :: start <= i < |s| ==> ReachableFromAny(web, links, s[i], k)
  }

  /** What is within `k - 1` links of the links of `u` is within `k` links
      of `u`. */
  lemma OneLinkFurther(web: Web, u: Url, s: seq<Url>, start: nat, k: nat)
    requires k > 0
    requires ListedWithinAny(web, Links(web, u), s, start, k - 1)
    ensures ListedWithin(web, u, s, start, k)
  {
    forall i | start <= i < |s|
      ensures ReachableWithin(web, u, s[i], k)
    {
      assert ReachableFromAny(web, Links(web, u), s[i], k - 1);
    }
  }

  /** A URL listed by `crawl(u, d)` is at most MAX_CRAWL_DEPTH - d links
      away from `u`: children are crawled at depth + 1 (test.js:77) and
      nothing deeper than the limit is admitted (test.js:45). */
  lemma {:induction false} CrawlFromWithinDepth(lim: Limits, base: string, web: Web, u: Url, d: nat, st: CrawlState)
    ensures |CrawlFrom(lim, base, web, u, d, st).found| > |st.found| ==> d <= lim.maxDepth
    ensures d <= lim.maxDepth ==>
              ListedWithin(web, u, CrawlFrom(lim, base, web, u, d, st).found, |st.found|, lim.maxDepth - d)
    decreases Budget(lim, d), 0
  {
    if !Skipped(lim, base, st, u, d) {
      var admitted := Admit(st, u);
      var k := lim.maxDepth - d;
      match Fetch(web, u)
      case None =>
        assert CrawlFrom(lim, base, web, u, d, st) == admitted;
        assert ReachableWithin(web, u, u, k);
      case Some(links) =>
        var inner := CrawlLinks(lim, base, web, links, d + 1, admitted);
        assert CrawlFrom(lim, base, web, u, d, st) == inner;
        CrawlLinksGrows(lim, base, web, links, d + 1, admitted);
        CrawlLinksWithinDepth(lim, base, web, links, d + 1, admitted);
        if d + 1 <= lim.maxDepth {
          OneLinkFurther(web, u, inner.found, |admitted.found|, k);
        }
        assert inner.found[|st.found|] == u;
        ListedWithinExtend(web, u, inner.found, |st.found|, k);
    }
  }

  /** `ListedWithin` from `start` follows from the element at `start` and
      `ListedWithin` from `start + 1`. */
  lemma ListedWithinExtend(web: Web, u: Url, s: seq<Url>, start: nat, k: nat)
    requires start < |s| && s[start] == u
    requires start + 1 < |s| ==> ListedWithin(web, u, s, start + 1, k)
    ensures ListedWithin(web, u, s, start, k)
  {
    assert ReachableWithin(web, u, u, k);
  }

  /** A URL listed by the links loop at depth `d` is at most
      MAX_CRAWL_DEPTH - d links away from one of those links. */
  lemma {:induction false} CrawlLinksWithinDepth(lim: Limits, base: string, web: Web, links: seq<Option<Url>>, d: nat, st: CrawlState)
    ensures |CrawlLinks(lim, base, web, links, d, st).found| > |st.found| ==> d <= lim.maxDepth
    ensures d <= lim.maxDepth ==>
              ListedWithinAny(web, links, CrawlLinks(lim, base, web, links, d, st).found, |st.found|, lim.maxDepth - d)
    decreases Budget(lim, d), |links|
  {
    var r := CrawlLinks(lim, base, web, links, d, st);
    if links == [] {
      assert r == st;
    } else {
      var next := match links[0]
        case None => st
        case Some(v) => CrawlFrom(lim, base, web, v, d, st);
      assert r == CrawlLinks(lim, base, web, links[1..], d, next);
      CrawlLinksWithinDepth(lim, base, web, links[1..], d, next);
      CrawlLinksGrows(lim, base, web, links[1..], d, next);
      if links[0].Some? {
        CrawlFromWithinDepth(lim, base, web, links[0].value, d, st);
        CrawlFromGrows(lim, base, web, links[0].value, d, st);
      }
      if d <= lim.maxDepth {
        forall i | |st.found| <= i < |r.found|
          ensures ReachableFromAny(web, links, r.found[i], lim.maxDepth - d)
        {
          if i < |next.found| {
            assert r.found[i] == next.found[i];
            assert Some(links[0].value) in links;
            assert ReachableWithin(web, links[0].value, r.found[i], lim.maxDepth - d);
          } else {
            assert ReachableFromAny(web, links[1..], r.found[i], lim.maxDepth - d);
            var v :| Some(v) in links[1..] && ReachableWithin(web, v, r.found[i], lim.maxDepth - d);
            assert Some(v) in links;
          }
        }
      }
    }
  }

  /** Links followed beyond the depth limit admit nothing (test.js:45). */
  lemma {:induction false} CrawlLinksBeyondDepth(lim: Limits, base: string, web: Web, links: seq<Option<Url>>, d: nat, st: CrawlState)
    requires d > lim.maxDepth
    ensures CrawlLinks(lim, base, web, links, d, st) == st
    decreases |links|
  {
    if links != [] {
      CrawlLinksBeyondDepth(lim, base, web, links[1..], d, st);
    }
  }

  /** Links are processed one after another, each from the state the ones
      before it left, whatever became of them: a failed page among them
      does not stop its siblings (test.js:70-83). */
  lemma {:induction false} CrawlLinksAppend(lim: Limits, base: string, web: Web, a: seq<Option<Url>>, b: seq<Option<Url>>, d: nat, st: CrawlState)
    ensures CrawlLinks(lim, base, web, a + b, d, st) ==
            CrawlLinks(lim, base, web, b, d, CrawlLinks(lim, base, web, a, d, st))
    decreases |a|
  {
    if a != [] {
      var next := match a[0]
        case None => st
        case Some(v) => CrawlFrom(lim, base, web, v, d, st);
      assert (a + b)[0] == a[0];
      assert (a + b)[1..] == a[1..] + b;
      CrawlLinksAppend(lim, base, web, a[1..], b, d, next);
    } else {
      assert a + b == b;
    }
  }

  /** The crawl started by `runAccessibilityCrawlAndExport` (test.js:93):
      from the empty state at depth 0, with BASE_DOMAIN the seed's base URL.
      Its list is valid, begins with the seed whenever the cap allows one
      page, and holds only pages within MAX_CRAWL_DEPTH links of the seed. */
  lemma SeedCrawl(lim: Limits, web: Web, seed: Url)
    requires GetBaseUrl(seed).Some?
    ensures var r := CrawlFrom(lim, GetBaseUrl(seed).value, web, seed, 0, Empty);
      && Valid(lim, GetBaseUrl(seed).value, r)
      && (lim.maxPages >= 1 <==> r.found != [])
      && (lim.maxPages >= 1 ==> r.found[0] == seed)
      && ListedWithin(web, seed, r.found, 0, lim.maxDepth)
  {
    var base := GetBaseUrl(seed).value;
    var r := CrawlFrom(lim, base, web, seed, 0, Empty);
    assert Valid(lim, base, Empty);
    CrawlFromKeepsValid(lim, base, web, seed, 0, Empty);
    CrawlOutcome(lim, base, web, seed, 0, Empty);
    assert lim.maxPages >= 1 <==> !Skipped(lim, base, Empty, seed, 0);
    if lim.maxPages >= 1 {
      assert [seed] <= r.found;
    }
    CrawlFromWithinDepth(lim, base, web, seed, 0, Empty);
  }

  /** With MAX_CRAWL_DEPTH = 0 the list is exactly the seed, whatever the
      seed page links to. */
  lemma DepthZeroListsOnlySeed(lim: Limits, web: Web, seed: Url)
    requires GetBaseUrl(seed).Some?
    requires lim.maxDepth == 0 && lim.maxPages >= 1
    ensures CrawlFrom(lim, GetBaseUrl(seed).value, web, seed, 0, Empty).found == [seed]
  {
    var base := GetBaseUrl(seed).value;
    CrawlLinksBeyondDepth(lim, base, web, Links(web, seed), 1, Admit(Empty, seed));
  }

  // ---------------------------------------------------------------------
  // The worklist form: a stack of pending calls `crawl(url, depth)`.

  datatype Item = Item(url: Url, depth: nat)

  /** The calls that the links loop makes, in document order. */
  function Children(links: seq<Option<Url>>, d: nat): (items: seq<Item>)
    ensures |items| <= |links|
    ensures forall i :: 0 <= i < |items| ==> items[i].depth == d && Some(items[i].url) in links
  {
    if links == [] then []
    else
      var first := match links[0]
        case None => []
        case Some(v) => [Item(v, d)];
      first + Children(links[1..], d)
  }

  /** Running the pending calls of `stack`, top first, each to completion. */
  ghost function Drain(lim: Limits, base: string, web: Web, stack: seq<Item>, st: CrawlState): CrawlState
    decreases |stack|
  {
    if stack == [] then st
    else Drain(lim, base, web, stack[1..], CrawlFrom(lim, base, web, stack[0].url, stack[0].depth, st))
  }

  /** Pushing a page's links on top of the stack runs the links loop first. */
  lemma {:induction false} DrainChildren(lim: Limits, base: string, web: Web, links: seq<Option<Url>>, d: nat, rest: seq<Item>, st: CrawlState)
    ensures Drain(lim, base, web, Children(links, d) + rest, st) ==
            Drain(lim, base, web, rest, CrawlLinks(lim, base, web, links, d, st))
    decreases |links|
  {
    if links == [] {
      assert Children(links, d) + rest == rest;
    } else {
      var tail := Children(links[1..], d);
      match links[0]
      case None =>
        assert Children(links, d) == tail;
        DrainChildren(lim, base, web, links[1..], d, rest, st);
      case Some(v) =>
        assert Children(links, d) + rest == [Item(v, d)] + (tail + rest);
        DrainChildren(lim, base, web, links[1..], d, rest, CrawlFrom(lim, base, web, v, d, st));
    }
  }

  /** Size of the call tree below `crawl(u, d)` if no call were skipped for
      being visited, over the cap or off site; finite because of the depth
      limit, and the measure that makes the worklist loop terminate. */
  ghost function TreeSize(lim: Limits, web: Web, u: Url, d: nat): nat
    decreases Budget(lim, d), 0
  {
    if d > lim.maxDepth then 1 else 1 + LinksSize(lim, web, Links(web, u), d + 1)
  }

  ghost function LinksSize(lim: Limits, web: Web, links: seq<Option<Url>>, d: nat): nat
    decreases Budget(lim, d), |links|
  {
    if links == [] then 0
    else
      var first := match links[0]
        case None => 0
        case Some(v) => TreeSize(lim, web, v, d);
      first + LinksSize(lim, web, links[1..], d)
  }

  ghost function Weight(lim: Limits, web: Web, stack: seq<Item>): nat {
    if stack == [] then 0
    else TreeSize(lim, web, stack[0].url, stack[0].depth) + Weight(lim, web, stack[1..])
  }

  lemma {:induction false} WeightOfChildren(lim: Limits, web: Web, links: seq<Option<Url>>, d: nat, rest: seq<Item>)
    ensures Weight(lim, web, Children(links, d) + rest) == LinksSize(lim, web, links, d) + Weight(lim, web, rest)
    decreases |links|
  {
    if links == [] {
      assert Children(links, d) + rest == rest;
    } else {
      var tail := Children(links[1..], d);
      WeightOfChildren(lim, web, links[1..], d, rest);
      match links[0]
      case None =>
        assert Children(links, d) == tail;
      case Some(v) =>
        assert Children(links, d) + rest == [Item(v, d)] + (tail + rest);
    }
  }

  /** A popped call that fails a check of test.js:45 or 52 is dropped: the
      rest of the stack runs from the same state, and the stack got lighter. */
  lemma DrainSkip(lim: Limits, base: string, web: Web, stack: seq<Item>, st: CrawlState)
    requires stack != [] && Skipped(lim, base, st, stack[0].url, stack[0].depth)
    ensures Drain(lim, base, web, stack[1..], st) == Drain(lim, base, web, stack, st)
    ensures Weight(lim, web, stack[1..]) < Weight(lim, web, stack)
  {
  }

  /** A popped call that passes the checks but whose page cannot be
      fetched admits the page and nothing else (test.js:85-87). */
  lemma DrainFetchFailed(lim: Limits, base: string, web: Web, stack: seq<Item>, st: CrawlState)
    requires stack != [] && !Skipped(lim, base, st, stack[0].url, stack[0].depth)
    requires Fetch(web, stack[0].url).None?
    ensures Drain(lim, base, web, stack[1..], Admit(st, stack[0].url)) == Drain(lim, base, web, stack, st)
    ensures Weight(lim, web, stack[1..]) < Weight(lim, web, stack)
  {
  }

  /** A popped call that passes the checks and whose page is fetched admits
      the page and is replaced by the calls of the page's links loop
      (test.js:58-83). */
  lemma DrainExpand(lim: Limits, base: string, web: Web, stack: seq<Item>, st: CrawlState, links: seq<Option<Url>>)
    requires stack != [] && !Skipped(lim, base, st, stack[0].url, stack[0].depth)
    requires Fetch(web, stack[0].url) == Some(links)
    ensures var next := Children(links, stack[0].depth + 1) + stack[1..];
      && Drain(lim, base, web, next, Admit(st, stack[0].url)) == Drain(lim, base, web, stack, st)
      && Weight(lim, web, next) < Weight(lim, web, stack)
  {
    var u, d, rest := stack[0].url, stack[0].depth, stack[1..];
    assert Links(web, u) == links;
    DrainChildren(lim, base, web, links, d + 1, rest, Admit(st, u));
    WeightOfChildren(lim, web, links, d + 1, rest);
  }
}
