/**
 * `extract_more_elements`: metadata by first-match lookups over fixed key
 * lists, the choice of the main-content root, and the ordered node stream
 * (headings, paragraphs, images) read off that root in document order.
 */
module Extract {
  import opened Wrappers
  import opened Strings
  import opened Dom

  /** `urljoin(base, ref)`, the resolution of section 5.2 of RFC 3986, kept abstract. */
  type Resolve = (string, string) -> string

  /** One entry of `out['nodes']`: `("heading", text, tag)`, `("paragraph", text, None)` or `("image", url, caption)`. */
  datatype ContentNode =
    | Heading(text: string, tag: string)
    | Paragraph(text: string)
    | Image(url: string, caption: string)

  /** The dictionary `extract_more_elements` returns. */
  datatype Article = Article(title: string, author: string, date: string, tags: string, leadImage: string, nodes: seq<ContentNode>)

  /** What readability produced when it is installed and did not raise: the summary tree and the short title. */
  datatype Readable = Readable(summary: Node, shortTitle: string)

  const AUTHOR_KEYS: seq<string> := ["author", "article:author", "og:article:author", "byline"]
  const DATE_KEYS: seq<string> := ["article:published_time", "pubdate", "publishdate", "date"]
  const IMAGE_SOURCE_KEYS: seq<string> := ["src", "data-src", "data-original"]
  const HEADING_TAGS: seq<string> := ["h1", "h2", "h3", "h4"]
  const PARAGRAPH_TAGS: seq<string> := ["p", "blockquote", "li"]

  /** Only the first this many `img` elements are considered for the lead image. */
  const LEAD_IMAGE_WINDOW := 30

  /** A paragraph is kept only when its text is longer than this. */
  const MIN_PARAGRAPH_LENGTH := 10

  // ---------------------------------------------------------------- metadata

  /** A `meta` element whose attribute `attr` is exactly `key`. */
  predicate IsMeta(n: Node, attr: string, key: string) {
    IsTag(n, "meta") && Attr(n, attr) == Some(key)
  }

  /** The filter `soup.find("meta", {attr: key})` applies. */
  function MetaMatch(attr: string, key: string): Node -> bool {
    (n: Node) => IsMeta(n, attr, key)
  }

  /** `find` over that filter: `None` exactly when no `meta` has the attribute, else such a `meta`. */
  lemma MetaFind(doc: Node, attr: string, key: string)
    ensures Find(doc, MetaMatch(attr, key)).None? ==>
              forall j :: 0 <= j < |Descendants(doc)| ==> !IsMeta(Descendants(doc)[j].node, attr, key)
    ensures Find(doc, MetaMatch(attr, key)).Some? ==>
              && IsMeta(Find(doc, MetaMatch(attr, key)).value, attr, key)
              && exists j :: 0 <= j < |Descendants(doc)| && IsMeta(Descendants(doc)[j].node, attr, key)
  {
    var vs := Descendants(doc);
    var p := MetaMatch(attr, key);
    var r := Find(doc, p);
    assert forall j :: 0 <= j < |vs| ==> p(vs[j].node) == IsMeta(vs[j].node, attr, key);
    if r.Some? {
      assert p(r.value);
      var i :| 0 <= i < |vs| && r.value == vs[i].node;
      assert IsMeta(vs[i].node, attr, key);
    }
  }

  /** `soup.find("meta", {"name": key}) or soup.find("meta", {"property": key})`. */
  function MetaTag(doc: Node, key: string): (r: Option<Node>)
    ensures r.Some? ==> IsMeta(r.value, "name", key) || IsMeta(r.value, "property", key)
    ensures r.None? <==> forall j :: 0 <= j < |Descendants(doc)| ==>
              !IsMeta(Descendants(doc)[j].node, "name", key) && !IsMeta(Descendants(doc)[j].node, "property", key)
    ensures (exists j :: 0 <= j < |Descendants(doc)| && IsMeta(Descendants(doc)[j].node, "name", key)) ==>
              r.Some? && IsMeta(r.value, "name", key)
  {
    MetaFind(doc, "name", key);
    MetaFind(doc, "property", key);
    var byName := Find(doc, MetaMatch("name", key));
    if byName.Some? then byName else Find(doc, MetaMatch("property", key))
  }

  /** `tag.get("content")` of that tag, when the tag exists and the content is not empty. */
  function MetaContent(doc: Node, key: string): Option<string> {
    match MetaTag(doc, key)
    case None => None
    case Some(t) => TruthyAttr(t, "content")
  }

  /** The loop over `keys` with `break`: the stripped content of the first key whose content is not empty. */
  function MetaLookup(doc: Node, keys: seq<string>): Option<string> {
    match FirstWhere(keys, (k: string) => MetaContent(doc, k).Some?)
    case None => None
    case Some(i) => Some(Strip(MetaContent(doc, keys[i]).value))
  }

  /** The first key with a content decides the lookup, whatever the later keys hold. */
  lemma MetaLookupFirst(doc: Node, keys: seq<string>, i: nat)
    requires i < |keys| && MetaContent(doc, keys[i]).Some?
    requires forall j :: 0 <= j < i ==> MetaContent(doc, keys[j]).None?
    ensures MetaLookup(doc, keys) == Some(Strip(MetaContent(doc, keys[i]).value))
  {
    FirstWhereUnique(keys, (k: string) => MetaContent(doc, k).Some?, i);
  }

  /** Without any content under any key, the lookup finds nothing. */
  lemma MetaLookupNone(doc: Node, keys: seq<string>)
    ensures MetaLookup(doc, keys).None? <==> forall j :: 0 <= j < |keys| ==> MetaContent(doc, keys[j]).None?
  {
    var p := (k: string) => MetaContent(doc, k).Some?;
    assert forall j :: 0 <= j < |keys| ==> (p(keys[j]) <==> MetaContent(doc, keys[j]).Some?);
  }

  /** A `name=` tag shadows the `property=` tag for the same key, even when its content is empty. */
  lemma NameShadowsProperty(doc: Node, key: string, t: Node)
    requires Find(doc, MetaMatch("name", key)) == Some(t)
    ensures MetaContent(doc, key) == TruthyAttr(t, "content")
  {
  }

  /** The tags on which the HTML tree builder splits `rel` into a list of words. */
  const LIST_REL_TAGS: seq<string> := ["a", "link", "area"]

  /**
   * `[rel=author]`: on `a`, `link` and `area` the attribute is a word list,
   * compared joined by single spaces; on any other tag it is compared as written.
   */
  predicate RelIsAuthor(n: Node) {
    && n.Element?
    && match Attr(n, "rel")
       case Some(v) => if n.name in LIST_REL_TAGS then Join(Split(v), " ") == "author" else v == "author"
       case None => false
  }

  /** The CSS selectors `[rel=author]`, `.author`, `.byline` and `[itemprop=author]`, tried in that order. */
  function AuthorElement(doc: Node): Option<Node> {
    var rel := Find(doc, RelIsAuthor);
    if rel.Some? then rel
    else
      var byClass := Find(doc, (n: Node) => n.Element? && "author" in Classes(n));
      if byClass.Some? then byClass
      else
        var byline := Find(doc, (n: Node) => n.Element? && "byline" in Classes(n));
        if byline.Some? then byline
        else Find(doc, (n: Node) => n.Element? && Attr(n, "itemprop") == Some("author"))
  }

  /** `out['author']`: the meta author when it strips to something, else the text of the selected element, else "". */
  function Author(doc: Node): string {
    var meta := MetaLookup(doc, AUTHOR_KEYS);
    if meta.Some? && meta.value != "" then meta.value
    else
      match AuthorElement(doc)
      case Some(sel) => GetText(sel, "")
      case None => ""
  }

  /** The first author key carrying a content that strips to something is the author. */
  lemma AuthorFromFirstMeta(doc: Node, i: nat)
    requires i < |AUTHOR_KEYS| && MetaContent(doc, AUTHOR_KEYS[i]).Some?
    requires forall j :: 0 <= j < i ==> MetaContent(doc, AUTHOR_KEYS[j]).None?
    requires Strip(MetaContent(doc, AUTHOR_KEYS[i]).value) != ""
    ensures Author(doc) == Strip(MetaContent(doc, AUTHOR_KEYS[i]).value)
  {
    MetaLookupFirst(doc, AUTHOR_KEYS, i);
  }

  /**
   * The key loop stops at the first non-empty content even when it is only
   * whitespace: later keys are then never read and the selectors decide.
   */
  lemma BlankAuthorMetaStopsLookup(doc: Node, i: nat)
    requires i < |AUTHOR_KEYS| && MetaContent(doc, AUTHOR_KEYS[i]).Some?
    requires forall j :: 0 <= j < i ==> MetaContent(doc, AUTHOR_KEYS[j]).None?
    requires AllSpace(MetaContent(doc, AUTHOR_KEYS[i]).value)
    ensures Author(doc) == (match AuthorElement(doc) case Some(sel) => GetText(sel, "") case None => "")
  {
    MetaLookupFirst(doc, AUTHOR_KEYS, i);
    StripEmptyIffBlank(MetaContent(doc, AUTHOR_KEYS[i]).value);
  }

  /** `out['date']`: the meta date when it strips to something, else the first `time` element's `datetime` or text. */
  function Date(doc: Node): string {
    var meta := MetaLookup(doc, DATE_KEYS);
    if meta.Some? && meta.value != "" then meta.value
    else
      match Find(doc, (n: Node) => IsTag(n, "time"))
      case None => ""
      case Some(t) =>
        match TruthyAttr(t, "datetime")
        case Some(d) => Strip(d)
        case None => GetText(t, "")
  }

  /** Without any date meta, the first `time` element's `datetime`, stripped, is the date. */
  lemma DateFromTimeElement(doc: Node, t: Node)
    requires forall j :: 0 <= j < |DATE_KEYS| ==> MetaContent(doc, DATE_KEYS[j]).None?
    requires Find(doc, (n: Node) => IsTag(n, "time")) == Some(t)
    requires TruthyAttr(t, "datetime").Some?
    ensures Date(doc) == Strip(TruthyAttr(t, "datetime").value)
  {
    MetaLookupNone(doc, DATE_KEYS);
  }

  /** `out['tags']`: the stripped content of the first `meta name="keywords"`, or "". */
  function Tags(doc: Node): (r: string)
    ensures Trimmed(r)
    ensures Find(doc, MetaMatch("name", "keywords")).None? ==> r == ""
    ensures Find(doc, MetaMatch("name", "keywords")).Some? ==>
              r == Strip(Attr(Find(doc, MetaMatch("name", "keywords")).value, "content").GetOr(""))
  {
    match Find(doc, MetaMatch("name", "keywords"))
    case None => ""
    case Some(t) =>
      match TruthyAttr(t, "content")
      case Some(c) => Strip(c)
      case None => ""
  }

  /** `img.get("src") or img.get("data-src") or img.get("data-original")`. */
  function ImageSource(n: Node): Option<string> {
    FirstTruthyAttr(n, IMAGE_SOURCE_KEYS)
  }

  /** `soup.find("meta", {"property": "og:image"}) or soup.find("meta", {"name": "og:image"})`. */
  function OgImage(doc: Node): Option<Node> {
    var p := Find(doc, MetaMatch("property", "og:image"));
    if p.Some? then p else Find(doc, MetaMatch("name", "og:image"))
  }

  /** The `og:image` tag's content, when the tag exists and the content is not empty. */
  function OgContent(doc: Node): Option<string> {
    match OgImage(doc)
    case None => None
    case Some(t) => TruthyAttr(t, "content")
  }

  /** `imgs[:30]`: the first 30 `img` elements in document order. */
  function LeadWindow(doc: Node): (w: seq<Node>)
    ensures |w| <= LEAD_IMAGE_WINDOW && |w| <= |FindAll(Descendants(doc), (n: Node) => IsTag(n, "img"))|
    ensures w == FindAll(Descendants(doc), (n: Node) => IsTag(n, "img"))[..|w|]
    ensures |w| < LEAD_IMAGE_WINDOW ==> w == FindAll(Descendants(doc), (n: Node) => IsTag(n, "img"))
  {
    var imgs := FindAll(Descendants(doc), (n: Node) => IsTag(n, "img"));
    if |imgs| <= LEAD_IMAGE_WINDOW then imgs else imgs[..LEAD_IMAGE_WINDOW]
  }

  /**
   * `out['lead_image']`: a non-empty `og:image` content, resolved, wins;
   * otherwise the resolved source of the first of the first 30 images that has
   * one; otherwise "".
   */
  function LeadImage(doc: Node, base: string, resolve: Resolve): (r: string)
    ensures OgContent(doc).Some? ==> r == resolve(base, OgContent(doc).value)
    ensures OgContent(doc).None? && (forall j :: 0 <= j < |LeadWindow(doc)| ==> ImageSource(LeadWindow(doc)[j]).None?) ==> r == ""
  {
    match OgContent(doc)
    case Some(c) => resolve(base, c)
    case None =>
      var window := LeadWindow(doc);
      match FirstWhere(window, (n: Node) => ImageSource(n).Some?)
      case None => ""
      case Some(i) => resolve(base, ImageSource(window[i]).value)
  }

  /** Without an `og:image` content, the first of the first 30 images that has a source is the lead image. */
  lemma LeadImageFromWindow(doc: Node, base: string, resolve: Resolve, i: nat)
    requires OgContent(doc).None?
    requires i < |LeadWindow(doc)| && ImageSource(LeadWindow(doc)[i]).Some?
    requires forall j :: 0 <= j < i ==> ImageSource(LeadWindow(doc)[j]).None?
    ensures LeadImage(doc, base, resolve) == resolve(base, ImageSource(LeadWindow(doc)[i]).value)
  {
    FirstWhereUnique(LeadWindow(doc), (n: Node) => ImageSource(n).Some?, i);
  }

  /** `out['title']`: readability's short title when it is not empty, else the `title` element's stripped string, else "". */
  function Title(doc: Node, readable: Option<Readable>): (r: string)
    ensures readable.Some? && readable.value.shortTitle != "" ==> r == readable.value.shortTitle
    ensures (readable.None? || readable.value.shortTitle == "") && Find(doc, (n: Node) => IsTag(n, "title")).None? ==> r == ""
    ensures (readable.None? || readable.value.shortTitle == "") && Find(doc, (n: Node) => IsTag(n, "title")).Some? ==>
              r == Strip(StringOf(Find(doc, (n: Node) => IsTag(n, "title")).value).GetOr(""))
  {
    if readable.Some? && readable.value.shortTitle != "" then readable.value.shortTitle
    else
      match Find(doc, (n: Node) => IsTag(n, "title"))
      case None => ""
      case Some(t) =>
        match StringOf(t)
        case Some(s) => Strip(s)
        case None => ""
  }

  // ---------------------------------------------------------- content root

  /** The index of the first greatest positive length: the `len(txt) > max_len` scan from `max_len = 0`. */
  function FirstMax(lens: seq<nat>): (r: Option<nat>)
    ensures r.None? <==> forall j :: 0 <= j < |lens| ==> lens[j] == 0
    ensures r.Some? ==> r.value < |lens| && lens[r.value] > 0
    ensures r.Some? ==> forall j :: 0 <= j < |lens| ==> lens[j] <= lens[r.value]
    ensures r.Some? ==> forall j :: 0 <= j < r.value ==> lens[j] < lens[r.value]
  {
    if lens == [] then None
    else
      var last := |lens| - 1;
      var r := FirstMax(lens[..last]);
      assert forall j :: 0 <= j < last ==> lens[..last][j] == lens[j];
      if r.None? then (if lens[last] > 0 then Some(last) else None)
      else if lens[last] > lens[r.value] then Some(last)
      else r
  }

  /** `find_all(['div', 'section'])`. */
  function Candidates(doc: Node): seq<Node> {
    FindAll(Descendants(doc), (n: Node) => IsTag(n, "div") || IsTag(n, "section"))
  }

  /** `len(c.get_text(separator=" ", strip=True))` for each candidate. */
  function TextLengths(cands: seq<Node>): (lens: seq<nat>)
    ensures |lens| == |cands|
    ensures forall j :: 0 <= j < |cands| ==> lens[j] == |GetText(cands[j], " ")|
  {
    seq(|cands|, j requires 0 <= j < |cands| => |GetText(cands[j], " ")|)
  }

  /** The candidate with the longest text, the first one on a tie; `fallback` when none has text. */
  function Longest(cands: seq<Node>, fallback: Node): Node {
    match FirstMax(TextLengths(cands))
    case None => fallback
    case Some(i) => cands[i]
  }

  /** `soup.body or soup`. */
  function BodyOr(doc: Node): Node {
    Find(doc, (n: Node) => IsTag(n, "body")).GetOr(doc)
  }

  /** The content root without readability: any `article`, else any `main`, else the longest `div`/`section`, else the body. */
  function FallbackRoot(doc: Node): Node {
    var article := Find(doc, (n: Node) => IsTag(n, "article"));
    if article.Some? then article.value
    else
      var main := Find(doc, (n: Node) => IsTag(n, "main"));
      if main.Some? then main.value
      else Longest(Candidates(doc), BodyOr(doc))
  }

  function ContentRoot(doc: Node, readable: Option<Readable>): Node {
    if readable.Some? then readable.value.summary else FallbackRoot(doc)
  }

  /** An `article` anywhere in the page beats every `main`, `div` and `section`. */
  lemma ArticleFirst(doc: Node, a: Node)
    requires Find(doc, (n: Node) => IsTag(n, "article")) == Some(a)
    ensures FallbackRoot(doc) == a && IsTag(a, "article")
  {
  }

  /** Without `article` or `main`, the root is a candidate with no longer text anywhere and strictly longer text than every earlier one. */
  lemma LongestCandidateWins(doc: Node)
    requires Find(doc, (n: Node) => IsTag(n, "article")).None?
    requires Find(doc, (n: Node) => IsTag(n, "main")).None?
    ensures var cands := Candidates(doc);
      || (&& (forall j :: 0 <= j < |cands| ==> GetText(cands[j], " ") == "")
          && FallbackRoot(doc) == BodyOr(doc))
      || (exists i :: && 0 <= i < |cands| && FallbackRoot(doc) == cands[i]
                      && GetText(cands[i], " ") != ""
                      && (forall j :: 0 <= j < |cands| ==> |GetText(cands[j], " ")| <= |GetText(cands[i], " ")|)
                      && (forall j :: 0 <= j < i ==> |GetText(cands[j], " ")| < |GetText(cands[i], " ")|))
  {
    var cands := Candidates(doc);
    var lens := TextLengths(cands);
    match FirstMax(lens)
    case None =>
    case Some(i) =>
      assert FallbackRoot(doc) == cands[i];
  }

  /** The `max_len`/`best` scan over the candidates. */
  method LongestCandidate(cands: seq<Node>, fallback: Node) returns (best: Node)
    ensures best == Longest(cands, fallback)
  {
    ghost var lens := TextLengths(cands);
    best := fallback;
    var maxLen := 0;
    for k := 0 to |cands|
      invariant FirstMax(lens[..k]).None? ==> best == fallback && maxLen == 0
      invariant FirstMax(lens[..k]).Some? ==> best == cands[FirstMax(lens[..k]).value] && maxLen == lens[FirstMax(lens[..k]).value]
    {
      assert lens[..k + 1][..k] == lens[..k];
      var txt := GetText(cands[k], " ");
      if |txt| > maxLen {
        maxLen := |txt|;
        best := cands[k];
      }
    }
    assert lens[..|cands|] == lens;
  }

  // ------------------------------------------------------------ node stream

  /** The text and caption rules for an image: the first `figcaption` under the parent, else `alt`, else "". */
  function Caption(v: Visit): (r: string)
    ensures var cap := Find(v.parent, (n: Node) => IsTag(n, "figcaption"));
            cap.Some? && Pieces(cap.value) != [] ==> r == GetText(cap.value, "") && Solid(r)
    ensures var cap := Find(v.parent, (n: Node) => IsTag(n, "figcaption"));
            cap.None? || Pieces(cap.value) == [] ==> r == Attr(v.node, "alt").GetOr("")
  {
    var cap := Find(v.parent, (n: Node) => IsTag(n, "figcaption"));
    var text := if cap.Some? then GetText(cap.value, "") else "";
    GetTextShape(if cap.Some? then cap.value else Text(""), "");
    if text != "" then text else Attr(v.node, "alt").GetOr("")
  }

  /** The node, if any, that one step of the walk contributes. */
  function NodeFor(v: Visit, base: string, resolve: Resolve): (r: seq<ContentNode>)
    ensures |r| <= 1
    ensures r != [] && r[0].Heading? ==>
              v.node.Element? && v.node.name in HEADING_TAGS && r[0] == Heading(GetText(v.node, ""), v.node.name) && r[0].text != ""
    ensures r != [] && r[0].Paragraph? ==>
              v.node.Element? && v.node.name in PARAGRAPH_TAGS && r[0] == Paragraph(GetText(v.node, "")) && |r[0].text| > MIN_PARAGRAPH_LENGTH
    ensures r != [] && r[0].Image? ==>
              IsTag(v.node, "img") && ImageSource(v.node).Some? && r[0] == Image(resolve(base, ImageSource(v.node).value), Caption(v))
    ensures r == [] <==> !Emits(v.node)
  {
    var n := v.node;
    if n.Element? && n.name in HEADING_TAGS then
      var t := GetText(n, "");
      if t != "" then [Heading(t, n.name)] else []
    else if n.Element? && n.name in PARAGRAPH_TAGS then
      var t := GetText(n, "");
      if t != "" && |t| > MIN_PARAGRAPH_LENGTH then [Paragraph(t)] else []
    else if IsTag(n, "img") then
      match ImageSource(n)
      case None => []
      case Some(src) => [Image(resolve(base, src), Caption(v))]
    else []
  }

  /** The filters of the walk: `h1`-`h4` with text, `p`/`blockquote`/`li` with more than 10 characters, `img` with a source. */
  predicate Emits(n: Node) {
    || (n.Element? && n.name in HEADING_TAGS && GetText(n, "") != "")
    || (n.Element? && n.name !in HEADING_TAGS && n.name in PARAGRAPH_TAGS && |GetText(n, "")| > MIN_PARAGRAPH_LENGTH)
    || (IsTag(n, "img") && ImageSource(n).Some?)
  }

  /** The nodes of a walk: each step's node, in walk order. */
  function NodeStream(vs: seq<Visit>, base: string, resolve: Resolve): seq<ContentNode> {
    if vs == [] then [] else NodeFor(vs[0], base, resolve) + NodeStream(vs[1..], base, resolve)
  }

  /** The stream of a walk split in two is the two streams one after the other: nodes keep document order. */
  lemma {:induction false} NodeStreamAppend(a: seq<Visit>, b: seq<Visit>, base: string, resolve: Resolve)
    ensures NodeStream(a + b, base, resolve) == NodeStream(a, base, resolve) + NodeStream(b, base, resolve)
  {
    if a == [] {
      assert a + b == b;
    } else {
      assert (a + b)[1..] == a[1..] + b;
      NodeStreamAppend(a[1..], b, base, resolve);
    }
  }

  /** Texts in a node stream carry no surrounding whitespace; headings are not empty and paragraphs are long. */
  predicate WellFormed(c: ContentNode) {
    match c
    case Heading(t, tag) => Solid(t) && tag in HEADING_TAGS
    case Paragraph(t) => Solid(t) && |t| > MIN_PARAGRAPH_LENGTH
    case Image(_, _) => true
  }

  lemma {:induction false} NodeStreamWellFormed(vs: seq<Visit>, base: string, resolve: Resolve)
    ensures forall j :: 0 <= j < |NodeStream(vs, base, resolve)| ==> WellFormed(NodeStream(vs, base, resolve)[j])
  {
    if vs != [] {
      NodeStreamWellFormed(vs[1..], base, resolve);
      GetTextShape(vs[0].node, "");
      var head := NodeFor(vs[0], base, resolve);
      assert forall j :: 0 <= j < |head| ==> WellFormed(head[j]);
    }
  }

  /** A walk of three steps contributes each step's nodes in turn. */
  lemma NodeStreamOfThree(v0: Visit, v1: Visit, v2: Visit, base: string, resolve: Resolve)
    ensures NodeStream([v0, v1, v2], base, resolve)
         == NodeFor(v0, base, resolve) + NodeFor(v1, base, resolve) + NodeFor(v2, base, resolve)
  {
    var f0, f1, f2 := NodeFor(v0, base, resolve), NodeFor(v1, base, resolve), NodeFor(v2, base, resolve);
    assert [v2][1..] == [];
    assert NodeStream([v2], base, resolve) == f2;
    assert [v1, v2][1..] == [v2];
    assert NodeStream([v1, v2], base, resolve) == f1 + f2;
    assert [v0, v1, v2][1..] == [v1, v2];
    assert NodeStream([v0, v1, v2], base, resolve) == f0 + (f1 + f2);
    AppendAssoc(f0, f1, f2);
  }

  /** The walk of a `div` holding a `blockquote` holding a `p` holding a string. */
  lemma QuoteWalk(text: Node, p: Node, quote: Node, root: Node)
    requires text.Text? && p == Element("p", map[], [text])
    requires quote == Element("blockquote", map[], [p]) && root == Element("div", map[], [quote])
    ensures Descendants(root) == [Visit(quote, root), Visit(p, quote), Visit(text, p)]
  {
    assert Descendants(text) == [];
    assert DescendantsOf([text], p) == [Visit(text, p)];
    assert Descendants(p) == [Visit(text, p)];
    assert DescendantsOf([p], quote) == [Visit(p, quote), Visit(text, p)];
    assert Descendants(quote) == [Visit(p, quote), Visit(text, p)];
    assert DescendantsOf([quote], root) == [Visit(quote, root), Visit(p, quote), Visit(text, p)];
  }

  /** A paragraph nested in a quotation yields two nodes: the quotation's and then its own. */
  lemma NestedParagraphInQuote(t: string, base: string, resolve: Resolve)
    requires Solid(t) && |t| > MIN_PARAGRAPH_LENGTH
    ensures var p := Element("p", map[], [Text(t)]);
            var quote := Element("blockquote", map[], [p]);
            NodeStream(Descendants(Element("div", map[], [quote])), base, resolve) == [Paragraph(t), Paragraph(t)]
  {
    var text := Text(t);
    var p := Element("p", map[], [text]);
    var quote := Element("blockquote", map[], [p]);
    var root := Element("div", map[], [quote]);
    StripOfTrimmed(t);
    assert Pieces(text) == [t];
    assert PiecesOf([text]) == [t];
    assert GetText(p, "") == t;
    assert PiecesOf([p]) == [t];
    assert GetText(quote, "") == t;
    QuoteWalk(text, p, quote, root);
    assert "blockquote" in PARAGRAPH_TAGS && "p" in PARAGRAPH_TAGS;
    assert NodeFor(Visit(quote, root), base, resolve) == [Paragraph(t)];
    assert NodeFor(Visit(p, quote), base, resolve) == [Paragraph(t)];
    assert NodeFor(Visit(text, p), base, resolve) == [];
    NodeStreamOfThree(Visit(quote, root), Visit(p, quote), Visit(text, p), base, resolve);
  }

  /** The walk over `main_content.descendants` that appends to `nodes`. */
  method BuildNodes(root: Node, base: string, resolve: Resolve) returns (nodes: seq<ContentNode>)
    ensures nodes == NodeStream(Descendants(root), base, resolve)
  {
    var walk := Descendants(root);
    nodes := [];
    for k := 0 to |walk|
      invariant nodes + NodeStream(walk[k..], base, resolve) == NodeStream(walk, base, resolve)
    {
      assert walk[k..][1..] == walk[k + 1..];
      ghost var step, rest := NodeFor(walk[k], base, resolve), NodeStream(walk[k + 1..], base, resolve);
      assert NodeStream(walk[k..], base, resolve) == step + rest;
      ghost var before := nodes;
      var el := walk[k].node;
      if el.Element? && el.name in HEADING_TAGS {
        var t := GetText(el, "");
        if t != "" {
          nodes := nodes + [Heading(t, el.name)];
        }
      } else if el.Element? && el.name in PARAGRAPH_TAGS {
        var t := GetText(el, "");
        if t != "" && |t| > MIN_PARAGRAPH_LENGTH {
          nodes := nodes + [Paragraph(t)];
        }
      } else if IsTag(el, "img") {
        var src := ImageSource(el);
        if src.Some? {
          var absu := resolve(base, src.value);
          var caption := "";
          var cap := Find(walk[k].parent, (n: Node) => IsTag(n, "figcaption"));
          if cap.Some? {
            caption := GetText(cap.value, "");
          }
          if caption == "" {
            caption := Attr(el, "alt").GetOr("");
          }
          nodes := nodes + [Image(absu, caption)];
        }
      }
      assert nodes == before + step;
      AppendAssoc(before, step, rest);
    }
    assert walk[|walk|..] == [];
  }

  // ------------------------------------------------------------- the whole

  /** The dictionary `extract_more_elements(html, base_url)` returns for the parsed page `doc`. */
  function Extracted(doc: Node, base: string, resolve: Resolve, readable: Option<Readable>): Article {
    Article(Title(doc, readable), Author(doc), Date(doc), Tags(doc), LeadImage(doc, base, resolve),
            NodeStream(Descendants(ContentRoot(doc, readable)), base, resolve))
  }

  /** `extract_more_elements`: the metadata lookups, the content root and the node walk. */
  method ExtractMoreElements(doc: Node, base: string, resolve: Resolve, readable: Option<Readable>) returns (out: Article)
    ensures out == Extracted(doc, base, resolve, readable)
    ensures forall j :: 0 <= j < |out.nodes| ==> WellFormed(out.nodes[j])
  {
    var root: Node;
    if readable.Some? {
      root := readable.value.summary;
    } else {
      var candidate := Find(doc, (n: Node) => IsTag(n, "article"));
      if candidate.None? {
        candidate := Find(doc, (n: Node) => IsTag(n, "main"));
      }
      if candidate.Some? {
        root := candidate.value;
      } else {
        root := LongestCandidate(Candidates(doc), BodyOr(doc));
      }
    }
    var nodes := BuildNodes(root, base, resolve);
    NodeStreamWellFormed(Descendants(root), base, resolve);
    out := Article(Title(doc, readable), Author(doc), Date(doc), Tags(doc), LeadImage(doc, base, resolve), nodes);
  }
}
