/** URL strings and the `protocol//host` origin that keeps the crawler on one
    site (`getBaseUrl` in test.js).

    Node's WHATWG `URL` parser is a foreign library; it is replaced here by a
    simple parser for the shape `scheme:` `//` host rest, where the scheme is
    any run of characters other than ':', '/', '?' and '#', the host runs up
    to the first '/', '?' or '#', and everything after it is the rest. It
    accepts some strings `new URL` rejects and rejects some it accepts. */
module Urls {
  import opened Wrappers

  /** An absolute URL as the crawler stores it in its visited set and list. */
  type Url = string

  /** A list of URLs in which no URL appears twice. */
  predicate Distinct(s: seq<Url>) {
    forall i, j :: 0 <= i < j < |s| ==> s[i] != s[j]
  }

  /** A parsed URL: `protocol` keeps its trailing ':' (as `URL.protocol`
      does), `host` includes any port, `rest` is path, query and fragment. */
  datatype UrlParts = UrlParts(protocol: string, host: string, rest: string)

  predicate IsDelimiter(c: char) {
    c == '/' || c == '?' || c == '#'
  }

  predicate IsSchemeChar(c: char) {
    c != ':' && !IsDelimiter(c)
  }

  /** The parts that `Format` can join and `Parse` can take apart again. */
  predicate WellFormed(p: UrlParts) {
    && |p.protocol| >= 2
    && p.protocol[|p.protocol| - 1] == ':'
    && (forall i :: 0 <= i < |p.protocol| - 1 ==> IsSchemeChar(p.protocol[i]))
    && |p.host| > 0
    && (forall i :: 0 <= i < |p.host| ==> !IsDelimiter(p.host[i]))
    && (p.rest == [] || IsDelimiter(p.rest[0]))
  }

  function Format(p: UrlParts): Url {
    p.protocol + "//" + p.host + p.rest
  }

  /** The origin string `protocol//host` built by test.js:29. */
  function Origin(p: UrlParts): string {
    p.protocol + "//" + p.host
  }

  /** Length of the longest prefix made of scheme characters. */
  function SchemeLength(s: string): (n: nat)
    ensures n <= |s|
  {
    if s == [] || !IsSchemeChar(s[0]) then 0 else 1 + SchemeLength(s[1..])
  }

  /** `SchemeLength` stops at the first character that is not a scheme
      character. */
  lemma {:induction false} SchemeLengthStops(s: string)
    ensures forall i :: 0 <= i < SchemeLength(s) ==> IsSchemeChar(s[i])
    ensures SchemeLength(s) < |s| ==> !IsSchemeChar(s[SchemeLength(s)])
  {
    if s != [] && IsSchemeChar(s[0]) {
      SchemeLengthStops(s[1..]);
    }
  }

  /** Length of the longest prefix free of '/', '?' and '#'. */
  function HostLength(s: string): (n: nat)
    ensures n <= |s|
  {
    if s == [] || IsDelimiter(s[0]) then 0 else 1 + HostLength(s[1..])
  }

  /** `HostLength` stops at the first '/', '?' or '#'. */
  lemma {:induction false} HostLengthStops(s: string)
    ensures forall i :: 0 <= i < HostLength(s) ==> !IsDelimiter(s[i])
    ensures HostLength(s) < |s| ==> IsDelimiter(s[HostLength(s)])
  {
    if s != [] && !IsDelimiter(s[0]) {
      HostLengthStops(s[1..]);
    }
  }

  /** The stand-in for `new URL(s)`: the parts of `s`, or None where `s`
      does not have the shape `scheme:` `//` host rest. */
  function Parse(s: string): Option<UrlParts> {
    var n := SchemeLength(s);
    if n == 0 || |s| < n + 3 || s[n] != ':' || s[n + 1] != '/' || s[n + 2] != '/' then None
    else
      var tail := s[n + 3..];
      var h := HostLength(tail);
      if h == 0 then None
      else Some(UrlParts(s[..n + 1], tail[..h], tail[h..]))
  }

  /** Whatever `Parse` accepts is well formed and joins back to the string
      it came from. */
  lemma ParseJoinsBack(s: string)
    requires Parse(s).Some?
    ensures WellFormed(Parse(s).value) && Format(Parse(s).value) == s
  {
    var n := SchemeLength(s);
    var tail := s[n + 3..];
    var h := HostLength(tail);
    var p := UrlParts(s[..n + 1], tail[..h], tail[h..]);
    assert Parse(s) == Some(p);
    SchemeLengthStops(s);
    HostLengthStops(tail);
    assert p.protocol[|p.protocol| - 1] == ':';
    assert forall i :: 0 <= i < |p.protocol| - 1 ==> IsSchemeChar(p.protocol[i]) by {
      forall i | 0 <= i < |p.protocol| - 1 ensures IsSchemeChar(p.protocol[i]) {
        assert p.protocol[i] == s[i];
      }
    }
    assert forall i :: 0 <= i < |p.host| ==> !IsDelimiter(p.host[i]) by {
      forall i | 0 <= i < |p.host| ensures !IsDelimiter(p.host[i]) {
        assert p.host[i] == tail[i];
      }
    }
    assert p.rest == [] || IsDelimiter(p.rest[0]) by {
      if p.rest != [] {
        assert p.rest[0] == tail[h];
      }
    }
    SplitJoinsBack(s, n, h);
  }

  /** Cutting `s` after `n + 1` characters, skipping "//" and cutting the
      tail after `h` more gives parts that join back to `s`. */
  lemma SplitJoinsBack(s: string, n: nat, h: nat)
    requires n + 3 <= |s| && s[n + 1] == '/' && s[n + 2] == '/'
    requires h <= |s| - (n + 3)
    ensures Format(UrlParts(s[..n + 1], s[n + 3..][..h], s[n + 3..][h..])) == s
  {
    var tail := s[n + 3..];
    assert tail[..h] + tail[h..] == tail;
    assert s[n + 1..n + 3] == "//";
    assert s == s[..n + 1] + s[n + 1..n + 3] + tail;
  }

  /** Well-formed parts are determined by the string they format to. */
  lemma FormatInjective(p: UrlParts, q: UrlParts)
    requires WellFormed(p) && WellFormed(q)
    requires Format(p) == Format(q)
    ensures p == q
  {
    var s := Format(p);
    SchemeEnd(p);
    SchemeEnd(q);
    var n := |p.protocol|;
    assert p.protocol == s[..n] && q.protocol == s[..n];
    var tail := s[n + 2..];
    assert tail == p.host + p.rest && tail == q.host + q.rest;
    HostEnd(p);
    HostEnd(q);
    assert p.host == tail[..|p.host|] && q.host == tail[..|q.host|];
    assert p.rest == tail[|p.host|..] && q.rest == tail[|q.host|..];
  }

  /** The scheme of a formatted URL ends exactly at the protocol's ':'. */
  lemma SchemeEnd(p: UrlParts)
    requires WellFormed(p)
    ensures SchemeLength(Format(p)) == |p.protocol| - 1
  {
    SchemeLengthStops(Format(p));
    assert Format(p)[|p.protocol| - 1] == ':';
  }

  /** The host of a formatted URL ends exactly where its rest starts. */
  lemma HostEnd(p: UrlParts)
    requires WellFormed(p)
    ensures HostLength(p.host + p.rest) == |p.host|
  {
    var t := p.host + p.rest;
    HostLengthStops(t);
    assert |p.host| < |t| ==> t[|p.host|] == p.rest[0];
  }

  /** Parsing undoes formatting: together with `ParseJoinsBack`, the two
      are inverse on well-formed parts. */
  lemma ParseFormat(p: UrlParts)
    requires WellFormed(p)
    ensures Parse(Format(p)) == Some(p)
  {
    var s := Format(p);
    SchemeEnd(p);
    var n := |p.protocol| - 1;
    assert s[n] == ':';
    assert s[n + 3..] == p.host + p.rest;
    HostEnd(p);
    assert Parse(s).Some?;
    ParseJoinsBack(s);
    FormatInjective(Parse(s).value, p);
  }

  /** `getBaseUrl` (test.js:26-34): `protocol//host` of a parseable URL,
      None (JavaScript's `null`) where `Parse` finds no URL shape. */
  function GetBaseUrl(url: string): Option<string> {
    match Parse(url)
    case None => None
    case Some(p) => Some(Origin(p))
  }

  /** The base URL is null exactly for unparseable URLs; otherwise it is the
      prefix of `url` that is itself a URL with the same protocol and host
      and nothing after the host. */
  lemma BaseUrlIsOriginPrefix(url: string)
    ensures GetBaseUrl(url).None? <==> Parse(url).None?
    ensures GetBaseUrl(url).Some? ==> GetBaseUrl(url).value <= url
    ensures GetBaseUrl(url).Some? ==>
              Parse(GetBaseUrl(url).value) == Some(Parse(url).value.(rest := ""))
  {
    if Parse(url).Some? {
      var p := Parse(url).value;
      ParseJoinsBack(url);
      var base := p.(rest := "");
      assert Format(base) == Origin(p);
      ParseFormat(base);
    }
  }

  /** The base URL of a well-formed URL is its `protocol//host`. */
  lemma BaseOfFormatted(p: UrlParts)
    requires WellFormed(p)
    ensures GetBaseUrl(Format(p)) == Some(Origin(p))
  {
    ParseFormat(p);
  }

  /** Comparing base URLs as strings (test.js:52) is comparing protocol and
      host: two parseable URLs have the same base exactly when both parts
      agree. */
  lemma SameBaseIffSameOrigin(s: string, t: string)
    requires Parse(s).Some? && Parse(t).Some?
    ensures GetBaseUrl(s) == GetBaseUrl(t) <==>
              Parse(s).value.protocol == Parse(t).value.protocol &&
              Parse(s).value.host == Parse(t).value.host
  {
    var p, q := Parse(s).value, Parse(t).value;
    if GetBaseUrl(s) == GetBaseUrl(t) {
      BaseUrlIsOriginPrefix(s);
      BaseUrlIsOriginPrefix(t);
      assert Some(p.(rest := "")) == Some(q.(rest := ""));
    }
  }

  /** A base URL is its own base. */
  lemma BaseIsFixedPoint(url: string)
    requires GetBaseUrl(url).Some?
    ensures GetBaseUrl(GetBaseUrl(url).value) == GetBaseUrl(url)
  {
    BaseUrlIsOriginPrefix(url);
    var base := GetBaseUrl(url).value;
    var p := Parse(url).value;
    assert Parse(base) == Some(p.(rest := ""));
    assert Origin(p.(rest := "")) == base;
  }
}
