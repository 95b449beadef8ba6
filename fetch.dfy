/**
 * The page fetcher (`fetch_html`): a static fetch, a decision whether the page
 * needs a script-executing render, and the choice between the rendered and the
 * static markup. The network and the headless browser are inputs: what they
 * returned, or None when they raised.
 */
module Fetch {
  import opened Wrappers
  import opened Strings

  /** A fetched page: its markup and the URL it ended at (`resp.text, resp.url` or `page.content(), page.url`). */
  datatype Page = Page(text: string, url: string)

  /** What `fetch_html` returns: markup that is never missing, and the resolved URL. */
  datatype Fetched = Fetched(markup: string, finalUrl: string)

  /** Hosts known to need script execution; matched as substrings of the lower-cased netloc. */
  const JS_HEAVY_SITES: seq<string> := ["tesla.com", "twitter.com", "instagram.com", "facebook.com", "youtube.com"]

  /** Stripped static markup shorter than this is too thin to trust. */
  const MIN_STATIC_LENGTH := 800

  /** A rendered page is used only when its stripped markup is longer than this. */
  const MIN_RENDERED_LENGTH := 200

  predicate IsAsciiAlpha(c: char) {
    'a' <= c <= 'z' || 'A' <= c <= 'Z'
  }

  /** The characters `urllib.parse` accepts in a scheme. */
  predicate IsSchemeChar(c: char) {
    IsAsciiAlpha(c) || '0' <= c <= '9' || c == '+' || c == '-' || c == '.'
  }

  /** The index of the first character of `s` that is in `stops`, or `|s|` when there is none. */
  function SpanUntil(s: string, stops: set<char>): (r: nat)
    ensures r <= |s|
    ensures forall k :: 0 <= k < r ==> s[k] !in stops
    ensures r == |s| || s[r] in stops
  {
    if s == [] || s[0] in stops then 0 else 1 + SpanUntil(s[1..], stops)
  }

  /** The URL with its scheme and colon removed, when it starts with a valid scheme. */
  function AfterScheme(url: string): string {
    var i := SpanUntil(url, {':'});
    if 0 < i < |url| && IsAsciiAlpha(url[0]) && forall k :: 0 <= k < i ==> IsSchemeChar(url[k])
    then url[i + 1..]
    else url
  }

  /**
   * `urlparse(url).netloc`: after the scheme, the part following `//` up to the
   * first `/`, `?` or `#`; None when `urlparse` raises for an unbalanced bracket.
   */
  function Netloc(url: string): (r: Option<string>)
    ensures r.Some? ==> '/' !in r.value && '?' !in r.value && '#' !in r.value
  {
    var rest := AfterScheme(url);
    if |rest| >= 2 && rest[..2] == "//" then
      var after := rest[2..];
      var netloc := after[..SpanUntil(after, {'/', '?', '#'})];
      if ('[' in netloc && ']' !in netloc) || (']' in netloc && '[' !in netloc) then None
      else Some(netloc)
    else Some("")
  }

  /** The original URL's host contains one of the script-heavy domains; a `urlparse` error counts as no. */
  predicate IsScriptHeavyHost(url: string) {
    match Netloc(url)
    case None => false
    case Some(netloc) => exists d :: d in JS_HEAVY_SITES && Contains(Lower(netloc), d)
  }

  /** The static markup says the page needs scripts. */
  predicate HasScriptMarker(text: string) {
    Contains(Lower(text), "<noscript") || Contains(Lower(text), "javascript required")
  }

  /** `need_render`: the static fetch failed, is thin, is script-gated, or the host is script-heavy. */
  predicate NeedRender(text: Option<string>, url: string) {
    || text.None?
    || |Strip(text.value)| < MIN_STATIC_LENGTH
    || HasScriptMarker(text.value)
    || IsScriptHeavyHost(url)
  }

  /** What the static fetch leaves: its markup or "", and its URL or the original one. */
  function StaticResult(url: string, direct: Option<Page>): Fetched {
    match direct
    case None => Fetched("", url)
    case Some(p) => Fetched(p.text, if p.url != "" then p.url else url)
  }

  function StaticText(direct: Option<Page>): Option<string> {
    match direct
    case None => None
    case Some(p) => Some(p.text)
  }

  /**
   * `fetch_html(url, timeout, tryRender)`: `direct` is the successful direct
   * response, `rendered` what the headless browser returned.
   */
  function FetchHtml(url: string, direct: Option<Page>, tryRender: bool, rendered: Option<Page>): (r: Fetched)
    ensures r == StaticResult(url, direct)
         || (&& tryRender
             && NeedRender(StaticText(direct), url)
             && rendered.Some?
             && r == Fetched(rendered.value.text, rendered.value.url)
             && |Strip(r.markup)| > MIN_RENDERED_LENGTH)
    ensures !tryRender || !NeedRender(StaticText(direct), url) ==> r == StaticResult(url, direct)
    ensures rendered.None? || |Strip(rendered.value.text)| <= MIN_RENDERED_LENGTH ==> r == StaticResult(url, direct)
    ensures direct.None? && rendered.None? ==> r == Fetched("", url)
    ensures && tryRender && NeedRender(StaticText(direct), url)
            && rendered.Some? && |Strip(rendered.value.text)| > MIN_RENDERED_LENGTH
            ==> r == Fetched(rendered.value.text, rendered.value.url)
  {
    if && tryRender
       && NeedRender(StaticText(direct), url)
       && rendered.Some?
       && |Strip(rendered.value.text)| > MIN_RENDERED_LENGTH
    then Fetched(rendered.value.text, rendered.value.url)
    else StaticResult(url, direct)
  }

  /** A direct page shorter than the threshold always asks for a render (a 50-character page does). */
  lemma ShortPageNeedsRender(text: string, url: string)
    requires |text| < MIN_STATIC_LENGTH
    ensures NeedRender(Some(text), url)
  {
  }

  /** A long page without script markers on an ordinary host never asks for a render. */
  lemma LongPlainPageNeedsNoRender(text: string, url: string)
    requires |Strip(text)| >= MIN_STATIC_LENGTH
    requires !HasScriptMarker(text) && !IsScriptHeavyHost(url)
    ensures !NeedRender(Some(text), url)
  {
  }

  /** The first character in `stops` is at `i`. */
  lemma SpanUntilAt(s: string, stops: set<char>, i: nat)
    requires i <= |s| && (i == |s| || s[i] in stops)
    requires forall k :: 0 <= k < i ==> s[k] !in stops
    ensures SpanUntil(s, stops) == i
  {
  }

  /** An authority character: neither a netloc delimiter nor a bracket. */
  predicate IsHostChar(c: char) {
    c != '/' && c != '?' && c != '#' && c != '[' && c != ']'
  }

  /** For `https://host/path`, the netloc is exactly the host. */
  lemma {:induction false} NetlocOfHttps(host: string, path: string)
    requires forall k :: 0 <= k < |host| ==> IsHostChar(host[k])
    requires path == [] || path[0] == '/' || path[0] == '?' || path[0] == '#'
    ensures Netloc("https://" + host + path) == Some(host)
  {
    var url := "https://" + host + path;
    assert url[..5] == "https";
    assert url[5] == ':';
    SpanUntilAt(url, {':'}, 5);
    assert url[6..] == "//" + host + path;
    assert AfterScheme(url) == "//" + host + path;
    var after := host + path;
    assert ("//" + host + path)[2..] == after;
    SpanUntilAt(after, {'/', '?', '#'}, |host|);
    assert after[..|host|] == host;
    assert '[' !in host && ']' !in host;
  }

  lemma LowerOfLowercase(s: string)
    requires forall k :: 0 <= k < |s| ==> !('A' <= s[k] <= 'Z')
    ensures Lower(s) == s
  {
  }

  /** A lower-case host character. */
  predicate IsLowerHostChar(c: char) {
    IsHostChar(c) && !('A' <= c <= 'Z')
  }

  /** Lower-case host characters stay so when strings of them are concatenated. */
  lemma LowerHostConcat(a: string, b: string)
    requires forall k :: 0 <= k < |a| ==> IsLowerHostChar(a[k])
    requires forall k :: 0 <= k < |b| ==> IsLowerHostChar(b[k])
    ensures forall k :: 0 <= k < |a + b| ==> IsLowerHostChar((a + b)[k])
  {
    assert forall k :: |a| <= k < |a + b| ==> (a + b)[k] == b[k - |a|];
  }

  lemma Regroup(a: string, b: string, c: string, d: string, e: string)
    ensures a + b + c + d + e == a + (b + c + d) + e
  {
  }

  /** A string contains whatever sits in its middle. */
  lemma ContainsMiddle(pre: string, d: string, post: string)
    ensures Contains(pre + d + post, d)
  {
    assert (pre + d + post)[|pre|..|pre| + |d|] == d;
    assert OccursAt(pre + d + post, d, |pre|);
  }

  /**
   * The host test is a substring test: any host with `tesla.com` inside it,
   * `nottesla.com` or `tesla.com.example` alike, counts as script-heavy.
   */
  lemma SubstringHostMatches(pre: string, post: string, path: string)
    requires forall k :: 0 <= k < |pre| ==> IsLowerHostChar(pre[k])
    requires forall k :: 0 <= k < |post| ==> IsLowerHostChar(post[k])
    requires path == [] || path[0] == '/' || path[0] == '?' || path[0] == '#'
    ensures IsScriptHeavyHost("https://" + pre + "tesla.com" + post + path)
  {
    var d := "tesla.com";
    var host := pre + d + post;
    assert forall k :: 0 <= k < |d| ==> IsLowerHostChar(d[k]);
    LowerHostConcat(pre, d);
    LowerHostConcat(pre + d, post);
    NetlocOfHttps(host, path);
    Regroup("https://", pre, d, post, path);
    LowerOfLowercase(host);
    ContainsMiddle(pre, d, post);
    assert JS_HEAVY_SITES[0] == d;
  }

  /** The scheme is optional; without `//` there is no netloc, so no host can match. */
  lemma NoAuthorityNoHost(url: string)
    requires |AfterScheme(url)| < 2 || AfterScheme(url)[..2] != "//"
    ensures Netloc(url) == Some("")
    ensures !IsScriptHeavyHost(url)
  {
    forall d | d in JS_HEAVY_SITES ensures !Contains(Lower(""), d) {
    }
  }
}
