/**
 * What the worker does with an extracted article besides the PDF: the plain
 * text (metadata lines, then one block per node, joined by newlines and
 * stripped), its 1200-character preview, and the `.txt`/`.pdf` output paths.
 */
module Compose {
  import opened Strings
  import opened Extract

  /** The preview shows at most this many characters of the text. */
  const PREVIEW_LENGTH := 1200

  /** The metadata lines: the title and a blank line, `By`, `Published:` and `Tags:` lines when set, then a blank line. */
  function HeaderParts(meta: Article): seq<string> {
    (if meta.title != "" then [meta.title, ""] else [])
    + (if meta.author != "" then ["By " + meta.author] else [])
    + (if meta.date != "" then ["Published: " + meta.date] else [])
    + (if meta.tags != "" then ["Tags: " + meta.tags] else [])
    + [""]
  }

  /** The lines of one node: the upper-cased heading, the paragraph, or the image marker and its caption; then a blank line. */
  function NodeParts(node: ContentNode): (r: seq<string>)
    ensures 2 <= |r| <= 3 && r[|r| - 1] == ""
  {
    match node
    case Heading(t, _) => [Upper(t), ""]
    case Paragraph(t) => [t, ""]
    case Image(url, caption) =>
      ["[Image: " + url + "]"] + (if caption != "" then ["Caption: " + caption] else []) + [""]
  }

  function NodesParts(nodes: seq<ContentNode>): seq<string> {
    if nodes == [] then [] else NodeParts(nodes[0]) + NodesParts(nodes[1..])
  }

  /** The lines of a run of nodes are the lines of each node, in node order. */
  lemma {:induction false} NodesPartsAppend(a: seq<ContentNode>, b: seq<ContentNode>)
    ensures NodesParts(a + b) == NodesParts(a) + NodesParts(b)
  {
    if a == [] {
      assert a + b == b;
    } else {
      assert (a + b)[1..] == a[1..] + b;
      NodesPartsAppend(a[1..], b);
    }
  }

  /** One more node appends its own lines. */
  lemma NodesPartsSnoc(nodes: seq<ContentNode>, k: nat)
    requires k < |nodes|
    ensures NodesParts(nodes[..k + 1]) == NodesParts(nodes[..k]) + NodeParts(nodes[k])
  {
    assert nodes[..k + 1] == nodes[..k] + [nodes[k]];
    NodesPartsAppend(nodes[..k], [nodes[k]]);
    assert NodesParts([nodes[k]]) == NodeParts(nodes[k]);
  }

  /** `"\n".join(text_parts).strip()`. */
  function PlainText(meta: Article): string {
    Strip(Join(HeaderParts(meta) + NodesParts(meta.nodes), "\n"))
  }

  /** The metadata part of `text_parts`. */
  method ComposeHeader(meta: Article) returns (parts: seq<string>)
    ensures parts == HeaderParts(meta)
  {
    parts := [];
    if meta.title != "" {
      parts := parts + [meta.title];
      parts := parts + [""];
    }
    if meta.author != "" {
      parts := parts + ["By " + meta.author];
    }
    if meta.date != "" {
      parts := parts + ["Published: " + meta.date];
    }
    if meta.tags != "" {
      parts := parts + ["Tags: " + meta.tags];
    }
    parts := parts + [""];
  }

  /** The lines one node appends to `text_parts`. */
  method ComposeNode(node: ContentNode) returns (lines: seq<string>)
    ensures lines == NodeParts(node)
  {
    match node {
      case Heading(t, _) =>
        lines := [Upper(t)];
      case Paragraph(t) =>
        lines := [t];
      case Image(url, caption) =>
        lines := ["[Image: " + url + "]"];
        if caption != "" {
          lines := lines + ["Caption: " + caption];
        }
    }
    lines := lines + [""];
  }

  /** The `text_parts` list the worker builds. */
  method ComposeParts(meta: Article) returns (parts: seq<string>)
    ensures parts == HeaderParts(meta) + NodesParts(meta.nodes)
  {
    parts := ComposeHeader(meta);
    ghost var header := parts;
    var nodes := meta.nodes;
    assert nodes[..0] == [];
    for k := 0 to |nodes|
      invariant parts == header + NodesParts(nodes[..k])
    {
      var lines := ComposeNode(nodes[k]);
      NodesPartsSnoc(nodes, k);
      AppendAssoc(header, NodesParts(nodes[..k]), lines);
      parts := parts + lines;
    }
    assert nodes[..|nodes|] == nodes;
  }

  /** `full_text`: the parts joined by newlines and stripped. */
  method ComposePlainText(meta: Article) returns (fullText: string)
    ensures fullText == PlainText(meta)
  {
    var parts := ComposeParts(meta);
    fullText := Strip(Join(parts, "\n"));
  }

  /** A page with nothing extracted gives an empty text. */
  lemma EmptyArticleText(meta: Article)
    requires meta.title == "" && meta.author == "" && meta.date == "" && meta.tags == "" && meta.nodes == []
    ensures PlainText(meta) == ""
  {
    assert HeaderParts(meta) + NodesParts(meta.nodes) == [""];
    assert TrimLeft("") == "";
  }

  /** When `s` does not start with whitespace, `strip()` keeps a prefix of it, at least up to its last non-space character. */
  lemma StripKeepsPrefix(s: string, n: nat)
    requires s != [] && !IsSpace(s[0])
    requires 0 < n <= |s| && !IsSpace(s[n - 1])
    ensures |Strip(s)| >= n && Strip(s)[..n] == s[..n]
  {
    assert TrimLeft(s) == s;
  }

  /** A title without surrounding whitespace opens the text. */
  lemma TitleOpensText(meta: Article)
    requires meta.title != "" && Trimmed(meta.title)
    ensures |PlainText(meta)| >= |meta.title| && PlainText(meta)[..|meta.title|] == meta.title
  {
    var parts := HeaderParts(meta) + NodesParts(meta.nodes);
    var t := meta.title;
    assert parts[0] == t && |parts| > 1;
    var s := Join(parts, "\n");
    assert s == t + "\n" + Join(parts[1..], "\n");
    assert s[..|t|] == t;
    StripKeepsPrefix(s, |t|);
  }

  /** `full_text[:1200] + ("..." if len(full_text) > 1200 else "")`. */
  function Preview(text: string): (r: string)
    ensures |r| <= PREVIEW_LENGTH + 3
    ensures |text| <= PREVIEW_LENGTH ==> r == text
    ensures |text| > PREVIEW_LENGTH ==> |r| == PREVIEW_LENGTH + 3 && r[..PREVIEW_LENGTH] == text[..PREVIEW_LENGTH] && EndsWith(r, "...")
  {
    if |text| > PREVIEW_LENGTH then text[..PREVIEW_LENGTH] + "..." else text
  }

  // ------------------------------------------------------------ file paths

  /** The index of the last `c` in `s`, or -1: `str.rfind`. */
  function LastIndex(s: string, c: char): (r: int)
    ensures -1 <= r < |s|
    ensures r >= 0 ==> s[r] == c
    ensures forall k :: r < k < |s| ==> s[k] != c
  {
    if s == [] then -1
    else if s[|s| - 1] == c then |s| - 1
    else LastIndex(s[..|s| - 1], c)
  }

  /** The last component has a character other than a dot in front of its last dot. */
  predicate HasStem(p: string, sep: int, dot: int)
    requires -1 <= sep < dot < |p|
  {
    exists k :: sep + 1 <= k < dot && p[k] != '.'
  }

  /**
   * `os.path.splitext(p)[0]` on POSIX: `p` cut at the last dot of its last
   * component, unless the component is only dots up to there (`.bashrc`).
   */
  function SplitExtRoot(p: string): (r: string)
    ensures |r| <= |p| && r == p[..|r|]
    ensures r != p ==> p[|r|] == '.' && '/' !in p[|r|..]
    ensures r != p ==> && (forall k :: |r| < k < |p| ==> p[k] != '.')
                       && exists k :: LastIndex(p, '/') < k < |r| && p[k] != '.'
    ensures r == p ==> forall d :: LastIndex(p, '/') < d < |p| && p[d] == '.' ==>
                         forall k :: LastIndex(p, '/') < k < d ==> p[k] == '.'
  {
    var sep := LastIndex(p, '/');
    var dot := LastIndex(p, '.');
    if dot > sep && HasStem(p, sep, dot) then p[..dot] else p
  }

  /** The suffix rule: keep `path` when its lower-cased form already ends in `ext`, else replace its extension by `ext`. */
  function ForceSuffix(path: string, ext: string): string {
    if EndsWith(Lower(path), ext) then path else SplitExtRoot(path) + ext
  }

  /** `txt_path`: the output path forced to `.txt`. */
  function TxtPath(outPath: string): string {
    ForceSuffix(outPath, ".txt")
  }

  /** `pdf_path`: the output path forced to `.pdf`. */
  function PdfPath(outPath: string): string {
    ForceSuffix(outPath, ".pdf")
  }

  lemma LowerAppend(a: string, b: string)
    ensures Lower(a + b) == Lower(a) + Lower(b)
  {
  }

  /** A lower-case extension, as both call sites use. */
  predicate LowerExt(ext: string) {
    Lower(ext) == ext
  }

  /**
   * The forced path always ends in the extension (ignoring case), keeps
   * everything before the old extension, and forcing it again changes nothing.
   */
  lemma ForceSuffixProperties(path: string, ext: string)
    requires LowerExt(ext)
    ensures EndsWith(Lower(ForceSuffix(path, ext)), ext)
    ensures ForceSuffix(ForceSuffix(path, ext), ext) == ForceSuffix(path, ext)
    ensures EndsWith(Lower(path), ext) ==> ForceSuffix(path, ext) == path
    ensures !EndsWith(Lower(path), ext) ==> ForceSuffix(path, ext) == SplitExtRoot(path) + ext
  {
    if !EndsWith(Lower(path), ext) {
      var r := SplitExtRoot(path) + ext;
      LowerAppend(SplitExtRoot(path), ext);
      assert Lower(r)[|Lower(r)| - |ext|..] == ext;
    }
  }

  /** Both output paths end in their own extension. */
  lemma OutputPathsEndRight(outPath: string)
    ensures EndsWith(Lower(TxtPath(outPath)), ".txt")
    ensures EndsWith(Lower(PdfPath(outPath)), ".pdf")
  {
    assert Lower(".txt") == ".txt";
    assert Lower(".pdf") == ".pdf";
    ForceSuffixProperties(outPath, ".txt");
    ForceSuffixProperties(outPath, ".pdf");
  }

  /** A last component that is only dots before its extension keeps it: `.bashrc` becomes `.bashrc.txt`. */
  lemma LeadingDotsAreNotAnExtension(dir: string, name: string)
    requires '.' !in name && '/' !in name
    ensures SplitExtRoot(dir + "/." + name) == dir + "/." + name
  {
    var p := dir + "/." + name;
    var sep := LastIndex(p, '/');
    var dot := LastIndex(p, '.');
    assert p[|dir|] == '/' && p[|dir| + 1] == '.';
    assert forall k :: |dir| + 1 < k < |p| ==> p[k] == name[k - |dir| - 2];
    assert sep == |dir|;
    assert dot == |dir| + 1;
  }
}
