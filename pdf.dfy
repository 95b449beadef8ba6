/**
 * `create_pdf`: the layout cursor `(page, y)` that places the title, the
 * information line and every content node top to bottom, starting a new page
 * before anything that would fall below its limit. The canvas is replaced by
 * the log of what is drawn where; image download and decoding are an input
 * giving the pixel size, or None when either fails.
 */
module Pdf {
  import opened Wrappers
  import opened Strings
  import opened Wrap
  import opened Extract

  /** The fixed page margin, in points. */
  const MARGIN: real := 28.0

  const TITLE_SIZE: nat := 18
  const INFO_SIZE: nat := 9
  const PARAGRAPH_SIZE: nat := 11
  const CAPTION_SIZE: nat := 9

  /** `"  |  ".join(info)`. */
  const INFO_SEPARATOR := "  |  "

  /** The pixel size of a downloaded and decoded image. */
  datatype Pixels = Pixels(width: nat, height: nat)

  /** The page size, the width function of the font, and what downloading and opening each image URL gives. */
  datatype Env = Env(width: real, height: real, measure: Measure, picture: string -> Option<Pixels>)

  /** The cursor: the page being drawn on (0 for the first) and the current baseline. */
  datatype Cursor = Cursor(page: nat, y: real)

  /** One canvas call: `drawString(x, y, text)` at a font size, or `drawImage` with its lower-left corner and size. */
  datatype Draw =
    | DrawString(page: nat, x: real, y: real, size: nat, text: string)
    | DrawImage(page: nat, x: real, y: real, width: real, height: real, url: string)

  /** Where a block leaves the cursor, and what it drew. */
  datatype Placed = Placed(at: Cursor, log: seq<Draw>)

  /** How a run of lines is set: left edge, font size, the lowest baseline allowed before a break, and the line advance. */
  datatype Style = Style(x: real, size: nat, limit: real, advance: real)

  /** `PAGE_H - margin`: where every page starts. */
  function Top(env: Env): real {
    env.height - MARGIN
  }

  /** `PAGE_W - 2*margin`: the wrapping width. */
  function UsableWidth(env: Env): real {
    env.width - 2.0 * MARGIN
  }

  const TITLE_STYLE := Style(MARGIN, TITLE_SIZE, MARGIN + 40.0, 22.0)
  const INFO_STYLE := Style(MARGIN, INFO_SIZE, MARGIN + 20.0, 16.0)
  const CAPTION_STYLE := Style(MARGIN + 4.0, CAPTION_SIZE, MARGIN + 12.0, 11.0)

  /** Headings and paragraphs: break below `margin + size*2`, advance `size + 2`. */
  function BodyStyle(size: nat): Style {
    Style(MARGIN, size, MARGIN + (size * 2) as real, (size + 2) as real)
  }

  /** `14 if node[2] == "h1" else 12`. */
  function HeadingSize(tag: string): nat {
    if tag == "h1" then 14 else 12
  }

  /**
   * The line loop `for ln in lines: if y < limit: showPage(); y = top;
   * drawString(x, y, ln); y -= advance`.
   */
  function PlaceLines(lines: seq<string>, c: Cursor, top: real, style: Style): Placed
    decreases |lines|
  {
    if lines == [] then Placed(c, [])
    else
      var at := if c.y < style.limit then Cursor(c.page + 1, top) else c;
      var rest := PlaceLines(lines[1..], Cursor(at.page, at.y - style.advance), top, style);
      Placed(rest.at, [DrawString(at.page, style.x, at.y, style.size, lines[0])] + rest.log)
  }

  /** The cursor lowered by a gap after a block. */
  function Gap(p: Placed, gap: real): Placed {
    Placed(Cursor(p.at.page, p.at.y - gap), p.log)
  }

  /** Lines set in a style, then the gap that follows the block. */
  function Block(lines: seq<string>, c: Cursor, top: real, style: Style, gap: real): Placed {
    Gap(PlaceLines(lines, c, top, style), gap)
  }

  /** `display_w = min(usable_w, iw)`, `display_h = display_w * (ih / iw)`; None when `iw` is 0 and the division raises. */
  function Scale(px: Pixels, usable: real): (r: Option<(real, real)>)
    ensures r.None? <==> px.width == 0
    ensures r.Some? ==> r.value.0 <= usable && r.value.0 <= px.width as real
    ensures r.Some? ==> r.value.0 == usable || r.value.0 == px.width as real
    ensures r.Some? ==> r.value.1 * (px.width as real) == r.value.0 * (px.height as real)
  {
    if px.width == 0 then None
    else
      var iw, ih := px.width as real, px.height as real;
      var w := if usable < iw then usable else iw;
      Some((w, w * (ih / iw)))
  }

  /** Without scaling up, an image is never drawn taller than its pixel height. */
  lemma ScaleNoLarger(px: Pixels, usable: real)
    requires usable >= 0.0 && Scale(px, usable).Some?
    ensures 0.0 <= Scale(px, usable).value.1 <= px.height as real
  {
    var iw, ih := px.width as real, px.height as real;
    var (w, h) := Scale(px, usable).value;
    assert 0.0 <= w <= iw;
    assert h == w * (ih / iw);
    assert 0.0 <= ih / iw;
    assert w * (ih / iw) <= iw * (ih / iw);
    assert iw * (ih / iw) == ih;
  }

  /** The image and its caption, drawn only when the picture could be fetched, opened and scaled. */
  function ImageBlock(env: Env, url: string, caption: string, c: Cursor): Placed {
    match env.picture(url)
    case None => Placed(c, [])
    case Some(px) =>
      match Scale(px, UsableWidth(env))
      case None => Placed(c, [])
      case Some(size) => ScaledImage(env, url, CaptionLines(env, caption), c, size.0, size.1)
  }

  /**
   * A picture `w` by `h` points: a new page first when its bottom would fall
   * below the margin, then the picture, 6 points, and the caption.
   */
  function ScaledImage(env: Env, url: string, caption: Option<seq<string>>, c: Cursor, w: real, h: real): Placed {
    var at := if c.y - h < MARGIN then Cursor(c.page + 1, Top(env)) else c;
    Captioned(env, DrawImage(at.page, MARGIN, at.y - h, w, h, url), caption, Cursor(at.page, at.y - (h + 6.0)))
  }

  /** Where the picture goes: at the cursor, or at the top of a new page when its bottom would fall below the margin. */
  lemma ScaledImageIs(env: Env, url: string, caption: Option<seq<string>>, c: Cursor, w: real, h: real, at: Cursor)
    requires at == if c.y - h < MARGIN then Cursor(c.page + 1, Top(env)) else c
    ensures ScaledImage(env, url, caption, c, w, h)
         == Captioned(env, DrawImage(at.page, MARGIN, at.y - h, w, h, url), caption, Cursor(at.page, at.y - (h + 6.0)))
  {
  }

  /** The caption's lines at 9 points when the node has a caption (`if caption:`), None when it has none. */
  function CaptionLines(env: Env, caption: string): Option<seq<string>> {
    if caption == "" then None else Some(Wrapped(caption, env.measure, CAPTION_SIZE, UsableWidth(env)))
  }

  /** The picture, then the caption lines, when there is a caption, from `below`, and 6 points after them. */
  function Captioned(env: Env, picture: Draw, caption: Option<seq<string>>, below: Cursor): Placed {
    match caption
    case None => Placed(below, [picture])
    case Some(lines) =>
      var cap := Block(lines, below, Top(env), CAPTION_STYLE, 6.0);
      Placed(cap.at, [picture] + cap.log)
  }

  /** What one entry of `nodes` puts on the page. */
  function NodeBlock(env: Env, node: ContentNode, c: Cursor): Placed {
    match node
    case Heading(t, tag) =>
      var size := HeadingSize(tag);
      Block(Wrapped(t, env.measure, size, UsableWidth(env)), c, Top(env), BodyStyle(size), 6.0)
    case Paragraph(t) =>
      Block(Wrapped(t, env.measure, PARAGRAPH_SIZE, UsableWidth(env)), c, Top(env), BodyStyle(PARAGRAPH_SIZE), 8.0)
    case Image(url, caption) => ImageBlock(env, url, caption, c)
  }

  /** The nodes one after the other, each starting where the previous one left the cursor. */
  function NodesBlock(env: Env, nodes: seq<ContentNode>, c: Cursor): Placed
    decreases |nodes|
  {
    if nodes == [] then Placed(c, [])
    else
      var first := NodeBlock(env, nodes[0], c);
      var rest := NodesBlock(env, nodes[1..], first.at);
      Placed(rest.at, first.log + rest.log)
  }

  /** The parts of the information line: `"By " + author`, the date as it is, `"Tags: " + tags`, each when not empty. */
  function InfoParts(meta: Article): seq<string> {
    (if meta.author != "" then ["By " + meta.author] else [])
    + (if meta.date != "" then [meta.date] else [])
    + (if meta.tags != "" then ["Tags: " + meta.tags] else [])
  }

  /** The title, when there is one, wrapped at 18 points from the top of the first page. */
  function TitleBlock(env: Env, meta: Article): Placed {
    var start := Cursor(0, Top(env));
    if meta.title == "" then Placed(start, [])
    else Block(Wrapped(meta.title, env.measure, TITLE_SIZE, UsableWidth(env)), start, Top(env), TITLE_STYLE, 6.0)
  }

  /** The information line, when it has parts: one line, never wrapped. */
  function InfoBlock(env: Env, parts: seq<string>, c: Cursor): Placed {
    if parts == [] then Placed(c, [])
    else Block([Join(parts, INFO_SEPARATOR)], c, Top(env), INFO_STYLE, 6.0)
  }

  /** The title block and the information line. */
  function Header(env: Env, meta: Article): Placed {
    var title := TitleBlock(env, meta);
    var info := InfoBlock(env, InfoParts(meta), title.at);
    Placed(info.at, title.log + info.log)
  }

  /** The whole document: where the cursor ends and everything drawn, in drawing order. */
  function Document(env: Env, meta: Article, nodes: seq<ContentNode>): Placed {
    var header := Header(env, meta);
    var body := NodesBlock(env, nodes, header.at);
    Placed(body.at, header.log + body.log)
  }

  // ------------------------------------------------------------ the canvas

  /** One run of the line loop, with the cursor in two variables. */
  method DrawLines(lines: seq<string>, page: nat, y: real, top: real, style: Style) returns (endPage: nat, endY: real, drawn: seq<Draw>)
    ensures Placed(Cursor(endPage, endY), drawn) == PlaceLines(lines, Cursor(page, y), top, style)
  {
    endPage, endY, drawn := page, y, [];
    for k := 0 to |lines|
      invariant PlaceLines(lines[k..], Cursor(endPage, endY), top, style).at == PlaceLines(lines, Cursor(page, y), top, style).at
      invariant drawn + PlaceLines(lines[k..], Cursor(endPage, endY), top, style).log == PlaceLines(lines, Cursor(page, y), top, style).log
    {
      assert lines[k..][1..] == lines[k + 1..];
      ghost var before, rest := drawn, PlaceLines(lines[k..], Cursor(endPage, endY), top, style);
      if endY < style.limit {
        endPage, endY := endPage + 1, top;
      }
      var line := [DrawString(endPage, style.x, endY, style.size, lines[k])];
      drawn := drawn + line;
      endY := endY - style.advance;
      AppendAssoc(before, line, PlaceLines(lines[k + 1..], Cursor(endPage, endY), top, style).log);
    }
    assert lines[|lines|..] == [];
  }

  /** The caption under a picture: wrapped at 9 points, set from `(page, y)`, then 6 points. */
  method DrawCaption(env: Env, caption: string, page: nat, y: real) returns (endPage: nat, endY: real, drawn: seq<Draw>)
    ensures Placed(Cursor(endPage, endY), drawn)
         == Block(Wrapped(caption, env.measure, CAPTION_SIZE, UsableWidth(env)), Cursor(page, y), Top(env), CAPTION_STYLE, 6.0)
  {
    var capLines := SplitTextToLines(caption, env.measure, CAPTION_SIZE, UsableWidth(env));
    endPage, endY, drawn := DrawLines(capLines, page, y, Top(env), CAPTION_STYLE);
    endY := endY - 6.0;
  }

  /** The picture, then its caption under it when there is one. */
  method DrawCaptioned(env: Env, picture: Draw, caption: string, page: nat, y: real) returns (endPage: nat, endY: real, drawn: seq<Draw>)
    ensures Placed(Cursor(endPage, endY), drawn) == Captioned(env, picture, CaptionLines(env, caption), Cursor(page, y))
  {
    endPage, endY, drawn := page, y, [picture];
    if caption != "" {
      var more;
      endPage, endY, more := DrawCaption(env, caption, page, y);
      drawn := drawn + more;
    }
  }

  /** A picture already scaled to `w` by `h` points: a page break if needed, the picture, then its caption. */
  method DrawScaled(env: Env, url: string, caption: string, page: nat, y: real, w: real, h: real) returns (endPage: nat, endY: real, drawn: seq<Draw>)
    ensures Placed(Cursor(endPage, endY), drawn) == ScaledImage(env, url, CaptionLines(env, caption), Cursor(page, y), w, h)
  {
    endPage, endY := page, y;
    if endY - h < MARGIN {
      endPage, endY := endPage + 1, Top(env);
    }
    ScaledImageIs(env, url, CaptionLines(env, caption), Cursor(page, y), w, h, Cursor(endPage, endY));
    var picture := DrawImage(endPage, MARGIN, endY - h, w, h, url);
    endPage, endY, drawn := DrawCaptioned(env, picture, caption, endPage, endY - (h + 6.0));
  }

  /** The `"image"` branch: download, open and scale the picture, draw it, then its caption. */
  method DrawPicture(env: Env, url: string, caption: string, page: nat, y: real) returns (endPage: nat, endY: real, drawn: seq<Draw>)
    ensures Placed(Cursor(endPage, endY), drawn) == ImageBlock(env, url, caption, Cursor(page, y))
  {
    endPage, endY, drawn := page, y, [];
    var local := env.picture(url);
    if local.Some? && local.value.width != 0 {
      var usable := UsableWidth(env);
      var iw, ih := local.value.width as real, local.value.height as real;
      var displayW := if usable < iw then usable else iw;
      var displayH := displayW * (ih / iw);
      assert Scale(local.value, usable).value.0 == displayW;
      assert Scale(local.value, usable).value.1 == displayH;
      endPage, endY, drawn := DrawScaled(env, url, caption, page, y, displayW, displayH);
    }
  }

  /** One entry of `nodes`: the body of the `for node in nodes` loop. */
  method DrawNode(env: Env, node: ContentNode, page: nat, y: real) returns (endPage: nat, endY: real, drawn: seq<Draw>)
    ensures Placed(Cursor(endPage, endY), drawn) == NodeBlock(env, node, Cursor(page, y))
  {
    var top, usable := Top(env), UsableWidth(env);
    match node {
      case Heading(txt, tag) =>
        var size := if tag == "h1" then 14 else 12;
        var lines := SplitTextToLines(txt, env.measure, size, usable);
        endPage, endY, drawn := DrawLines(lines, page, y, top, BodyStyle(size));
        endY := endY - 6.0;
      case Paragraph(txt) =>
        var lines := SplitTextToLines(txt, env.measure, PARAGRAPH_SIZE, usable);
        endPage, endY, drawn := DrawLines(lines, page, y, top, BodyStyle(PARAGRAPH_SIZE));
        endY := endY - 8.0;
      case Image(url, caption) =>
        endPage, endY, drawn := DrawPicture(env, url, caption, page, y);
    }
  }

  /** The `# Title` section: the title wrapped at 18 points. */
  method DrawTitle(env: Env, meta: Article) returns (page: nat, y: real, log: seq<Draw>)
    ensures Placed(Cursor(page, y), log) == TitleBlock(env, meta)
  {
    var top := Top(env);
    page, y, log := 0, top, [];
    if meta.title != "" {
      var titleLines := SplitTextToLines(meta.title, env.measure, TITLE_SIZE, UsableWidth(env));
      page, y, log := DrawLines(titleLines, page, y, top, TITLE_STYLE);
      y := y - 6.0;
    }
  }

  /** A single line through the line loop. */
  lemma PlaceOneLine(line: string, c: Cursor, top: real, style: Style)
    ensures var at := if c.y < style.limit then Cursor(c.page + 1, top) else c;
      PlaceLines([line], c, top, style) == Placed(Cursor(at.page, at.y - style.advance), [DrawString(at.page, style.x, at.y, style.size, line)])
  {
    assert [line][1..] == [];
  }

  /** The `# Meta (author/date/tags)` section: one line at 9 points, 22 points in all. */
  method DrawInfo(env: Env, meta: Article, page: nat, y: real) returns (endPage: nat, endY: real, drawn: seq<Draw>)
    ensures Placed(Cursor(endPage, endY), drawn) == InfoBlock(env, InfoParts(meta), Cursor(page, y))
  {
    endPage, endY, drawn := page, y, [];
    var info := [];
    if meta.author != "" {
      info := info + ["By " + meta.author];
    }
    if meta.date != "" {
      info := info + [meta.date];
    }
    if meta.tags != "" {
      info := info + ["Tags: " + meta.tags];
    }
    assert info == InfoParts(meta);
    if info != [] {
      var line := Join(info, INFO_SEPARATOR);
      PlaceOneLine(line, Cursor(page, y), Top(env), INFO_STYLE);
      if endY < MARGIN + 20.0 {
        endPage, endY := endPage + 1, Top(env);
      }
      drawn := drawn + [DrawString(endPage, MARGIN, endY, INFO_SIZE, line)];
      endY := endY - 16.0;
      endY := endY - 6.0;
    }
  }

  /** `create_pdf(path, meta, nodes, pagesize)`: the title, the information line, then the nodes. */
  method CreatePdf(env: Env, meta: Article, nodes: seq<ContentNode>) returns (log: seq<Draw>)
    ensures log == Document(env, meta, nodes).log
  {
    var page, y;
    page, y, log := DrawTitle(env, meta);
    var more;
    page, y, more := DrawInfo(env, meta, page, y);
    log := log + more;
    ghost var header := Header(env, meta);
    assert Placed(Cursor(page, y), log) == header;
    ghost var body := NodesBlock(env, nodes, header.at);
    for k := 0 to |nodes|
      invariant NodesBlock(env, nodes[k..], Cursor(page, y)).at == body.at
      invariant log + NodesBlock(env, nodes[k..], Cursor(page, y)).log == header.log + body.log
    {
      assert nodes[k..][1..] == nodes[k + 1..];
      ghost var before := log;
      var drawn;
      page, y, drawn := DrawNode(env, nodes[k], page, y);
      log := log + drawn;
      AppendAssoc(before, drawn, NodesBlock(env, nodes[k + 1..], Cursor(page, y)).log);
    }
    assert nodes[|nodes|..] == [];
  }

  // -------------------------------------------------------- reading order

  function Pos(d: Draw): Cursor {
    Cursor(d.page, d.y)
  }

  /** `a` is read before `b`: an earlier page, or higher up on the same page. */
  predicate Precedes(a: Cursor, b: Cursor) {
    a.page < b.page || (a.page == b.page && a.y > b.y)
  }

  /** `b` is not read before `a`. */
  predicate NotBefore(a: Cursor, b: Cursor) {
    a.page < b.page || (a.page == b.page && a.y >= b.y)
  }

  /**
   * Every draw's anchor (a string's baseline, a picture's lower-left corner)
   * lies strictly below the previous draw's anchor on the same page, or on a
   * later page. Only the anchors are ordered: the glyphs of a string rise above
   * its baseline, so this is not a statement that nothing overlaps.
   */
  predicate Reading(log: seq<Draw>) {
    forall i :: 0 <= i < |log| - 1 ==> Precedes(Pos(log[i]), Pos(log[i + 1]))
  }

  /** A block begun at `c`: drawn in reading order, nothing above `c`, and the cursor left below all of it. */
  predicate Flows(c: Cursor, p: Placed) {
    && Reading(p.log)
    && (forall j :: 0 <= j < |p.log| ==> NotBefore(c, Pos(p.log[j])) && Precedes(Pos(p.log[j]), p.at))
    && NotBefore(c, p.at)
  }

  /** Two blocks that each flow, the second begun where the first ends, flow together. */
  lemma FlowsThen(c: Cursor, p: Placed, q: Placed)
    requires Flows(c, p) && Flows(p.at, q)
    ensures Flows(c, Placed(q.at, p.log + q.log))
  {
    var log := p.log + q.log;
    forall i | 0 <= i < |log| - 1
      ensures Precedes(Pos(log[i]), Pos(log[i + 1]))
    {
      if i < |p.log| - 1 {
        assert log[i] == p.log[i] && log[i + 1] == p.log[i + 1];
      } else if i == |p.log| - 1 {
        assert log[i] == p.log[i] && log[i + 1] == q.log[0];
      } else {
        assert log[i] == q.log[i - |p.log|] && log[i + 1] == q.log[i + 1 - |p.log|];
      }
    }
    forall j | 0 <= j < |log|
      ensures NotBefore(c, Pos(log[j])) && Precedes(Pos(log[j]), q.at)
    {
      if j < |p.log| {
        assert log[j] == p.log[j];
      } else {
        assert log[j] == q.log[j - |p.log|];
      }
    }
  }

  lemma {:induction false} PlaceLinesFlows(lines: seq<string>, c: Cursor, top: real, style: Style)
    requires style.advance > 0.0
    ensures Flows(c, PlaceLines(lines, c, top, style))
    decreases |lines|
  {
    if lines != [] {
      var at := if c.y < style.limit then Cursor(c.page + 1, top) else c;
      var next := Cursor(at.page, at.y - style.advance);
      PlaceLinesFlows(lines[1..], next, top, style);
      var first := Placed(next, [DrawString(at.page, style.x, at.y, style.size, lines[0])]);
      FlowsThen(c, first, PlaceLines(lines[1..], next, top, style));
    }
  }

  lemma BlockFlows(lines: seq<string>, c: Cursor, top: real, style: Style, gap: real)
    requires style.advance > 0.0 && gap >= 0.0
    ensures Flows(c, Block(lines, c, top, style, gap))
  {
    PlaceLinesFlows(lines, c, top, style);
  }

  /** A picture that flows from `c`, followed by its caption, flows from `c`. */
  lemma CaptionedFlows(env: Env, picture: Draw, caption: Option<seq<string>>, below: Cursor, c: Cursor)
    requires Flows(c, Placed(below, [picture]))
    ensures Flows(c, Captioned(env, picture, caption, below))
  {
    if caption.Some? {
      var lines := caption.value;
      BlockFlows(lines, below, Top(env), CAPTION_STYLE, 6.0);
      FlowsThen(c, Placed(below, [picture]), Block(lines, below, Top(env), CAPTION_STYLE, 6.0));
    }
  }

  lemma ScaledImageFlows(env: Env, url: string, caption: Option<seq<string>>, c: Cursor, w: real, h: real)
    requires h >= 0.0
    ensures Flows(c, ScaledImage(env, url, caption, c, w, h))
  {
    var at := if c.y - h < MARGIN then Cursor(c.page + 1, Top(env)) else c;
    var picture := DrawImage(at.page, MARGIN, at.y - h, w, h, url);
    var below := Cursor(at.page, at.y - (h + 6.0));
    ScaledImageIs(env, url, caption, c, w, h, at);
    assert Flows(c, Placed(below, [picture]));
    CaptionedFlows(env, picture, caption, below, c);
  }

  lemma ImageFlows(env: Env, url: string, caption: string, c: Cursor)
    requires UsableWidth(env) >= 0.0
    ensures Flows(c, ImageBlock(env, url, caption, c))
  {
    if !Undrawable(env, url) {
      var px := env.picture(url).value;
      ScaleNoLarger(px, UsableWidth(env));
      var size := Scale(px, UsableWidth(env)).value;
      ScaledImageFlows(env, url, CaptionLines(env, caption), c, size.0, size.1);
    }
  }

  lemma NodeBlockFlows(env: Env, node: ContentNode, c: Cursor)
    requires UsableWidth(env) >= 0.0
    ensures Flows(c, NodeBlock(env, node, c))
  {
    match node
    case Heading(t, tag) =>
      BlockFlows(Wrapped(t, env.measure, HeadingSize(tag), UsableWidth(env)), c, Top(env), BodyStyle(HeadingSize(tag)), 6.0);
    case Paragraph(t) =>
      BlockFlows(Wrapped(t, env.measure, PARAGRAPH_SIZE, UsableWidth(env)), c, Top(env), BodyStyle(PARAGRAPH_SIZE), 8.0);
    case Image(url, caption) =>
      ImageFlows(env, url, caption, c);
  }

  lemma {:induction false} NodesBlockFlows(env: Env, nodes: seq<ContentNode>, c: Cursor)
    requires UsableWidth(env) >= 0.0
    ensures Flows(c, NodesBlock(env, nodes, c))
    decreases |nodes|
  {
    if nodes != [] {
      var first := NodeBlock(env, nodes[0], c);
      NodeBlockFlows(env, nodes[0], c);
      NodesBlockFlows(env, nodes[1..], first.at);
      FlowsThen(c, first, NodesBlock(env, nodes[1..], first.at));
    }
  }

  /**
   * The whole document is drawn top to bottom, page after page: the anchor of
   * every string and picture lies below the one before it or on a later page.
   */
  lemma DocumentInReadingOrder(env: Env, meta: Article, nodes: seq<ContentNode>)
    requires UsableWidth(env) >= 0.0
    ensures Reading(Document(env, meta, nodes).log)
  {
    var start := Cursor(0, Top(env));
    var title := TitleBlock(env, meta);
    if meta.title != "" {
      BlockFlows(Wrapped(meta.title, env.measure, TITLE_SIZE, UsableWidth(env)), start, Top(env), TITLE_STYLE, 6.0);
    }
    var parts := InfoParts(meta);
    var info := InfoBlock(env, parts, title.at);
    if parts != [] {
      BlockFlows([Join(parts, INFO_SEPARATOR)], title.at, Top(env), INFO_STYLE, 6.0);
    }
    FlowsThen(start, title, info);
    var header := Header(env, meta);
    NodesBlockFlows(env, nodes, header.at);
    FlowsThen(start, header, NodesBlock(env, nodes, header.at));
  }

  // ------------------------------------------------------------ text bands

  /** A string set in `style`: at its left edge and size, and not below its break limit. */
  predicate SetIn(d: Draw, style: Style) {
    d.DrawString? && d.x == style.x && d.size == style.size && d.y >= style.limit
  }

  /**
   * The break-before-draw rule: when a page starts no lower than the limit,
   * every line is drawn at or above the limit, in the style's position and size.
   */
  lemma {:induction false} PlaceLinesInBand(lines: seq<string>, c: Cursor, top: real, style: Style)
    requires top >= style.limit
    ensures forall j :: 0 <= j < |PlaceLines(lines, c, top, style).log| ==> SetIn(PlaceLines(lines, c, top, style).log[j], style)
    decreases |lines|
  {
    if lines != [] {
      var at := if c.y < style.limit then Cursor(c.page + 1, top) else c;
      PlaceLinesInBand(lines[1..], Cursor(at.page, at.y - style.advance), top, style);
    }
  }

  /** No string is drawn lower than its floor. */
  predicate TextAbove(log: seq<Draw>, floor: real) {
    forall j :: 0 <= j < |log| ==> log[j].DrawString? ==> log[j].y >= floor
  }

  lemma TextAboveAppend(a: seq<Draw>, b: seq<Draw>, floor: real)
    requires TextAbove(a, floor) && TextAbove(b, floor)
    ensures TextAbove(a + b, floor)
  {
    forall j | 0 <= j < |a + b| && (a + b)[j].DrawString?
      ensures (a + b)[j].y >= floor
    {
      if j >= |a| {
        assert (a + b)[j] == b[j - |a|];
      }
    }
  }

  /**
   * Headings are set at 14 points for `h1` and 12 otherwise, paragraphs at 11,
   * each line at or above `margin + 2*size`; captions stay above `margin + 12`.
   */
  lemma NodeBlockInBand(env: Env, node: ContentNode, c: Cursor)
    requires Top(env) >= MARGIN + 28.0
    ensures var log := NodeBlock(env, node, c).log;
      && TextAbove(log, MARGIN + 12.0)
      && (node.Heading? ==> forall j :: 0 <= j < |log| ==> SetIn(log[j], BodyStyle(HeadingSize(node.tag))))
      && (node.Paragraph? ==> forall j :: 0 <= j < |log| ==> SetIn(log[j], BodyStyle(PARAGRAPH_SIZE)))
  {
    match node
    case Heading(t, tag) =>
      PlaceLinesInBand(Wrapped(t, env.measure, HeadingSize(tag), UsableWidth(env)), c, Top(env), BodyStyle(HeadingSize(tag)));
    case Paragraph(t) =>
      PlaceLinesInBand(Wrapped(t, env.measure, PARAGRAPH_SIZE, UsableWidth(env)), c, Top(env), BodyStyle(PARAGRAPH_SIZE));
    case Image(url, caption) =>
      if !Undrawable(env, url) {
        var size := Scale(env.picture(url).value, UsableWidth(env)).value;
        ScaledImageInBand(env, url, CaptionLines(env, caption), c, size.0, size.1);
      }
  }

  /** The picture comes first; every caption line is set at `x + 4` in 9 points, at or above `margin + 12`. */
  lemma ScaledImageInBand(env: Env, url: string, caption: Option<seq<string>>, c: Cursor, w: real, h: real)
    requires Top(env) >= MARGIN + 12.0
    ensures var log := ScaledImage(env, url, caption, c, w, h).log;
      && log != [] && log[0].DrawImage?
      && (forall j :: 1 <= j < |log| ==> SetIn(log[j], CAPTION_STYLE))
      && TextAbove(log, MARGIN + 12.0)
  {
    var at := if c.y - h < MARGIN then Cursor(c.page + 1, Top(env)) else c;
    var picture := DrawImage(at.page, MARGIN, at.y - h, w, h, url);
    var below := Cursor(at.page, at.y - (h + 6.0));
    ScaledImageIs(env, url, caption, c, w, h, at);
    CaptionedInBand(env, picture, caption, below);
  }

  /** After the picture, every caption line is set in the caption style. */
  lemma CaptionedInBand(env: Env, picture: Draw, caption: Option<seq<string>>, below: Cursor)
    requires Top(env) >= MARGIN + 12.0 && picture.DrawImage?
    ensures var log := Captioned(env, picture, caption, below).log;
      && log != [] && log[0] == picture
      && (forall j :: 1 <= j < |log| ==> SetIn(log[j], CAPTION_STYLE))
      && TextAbove(log, MARGIN + 12.0)
  {
    if caption.Some? {
      var lines := caption.value;
      var cap := PlaceLines(lines, below, Top(env), CAPTION_STYLE).log;
      PlaceLinesInBand(lines, below, Top(env), CAPTION_STYLE);
      TextAboveAppend([picture], cap, MARGIN + 12.0);
      assert forall j :: 1 <= j < |[picture] + cap| ==> ([picture] + cap)[j] == cap[j - 1];
    }
  }

  lemma {:induction false} NodesBlockInBand(env: Env, nodes: seq<ContentNode>, c: Cursor)
    requires Top(env) >= MARGIN + 28.0
    ensures TextAbove(NodesBlock(env, nodes, c).log, MARGIN + 12.0)
    decreases |nodes|
  {
    if nodes != [] {
      var first := NodeBlock(env, nodes[0], c);
      NodeBlockInBand(env, nodes[0], c);
      NodesBlockInBand(env, nodes[1..], first.at);
      TextAboveAppend(first.log, NodesBlock(env, nodes[1..], first.at).log, MARGIN + 12.0);
    }
  }

  /** On a page with room for a title line, no string of the document is drawn below `margin + 12`. */
  lemma DocumentInBand(env: Env, meta: Article, nodes: seq<ContentNode>)
    requires Top(env) >= MARGIN + 40.0
    ensures TextAbove(Document(env, meta, nodes).log, MARGIN + 12.0)
  {
    var start := Cursor(0, Top(env));
    var title := TitleBlock(env, meta);
    if meta.title != "" {
      PlaceLinesInBand(Wrapped(meta.title, env.measure, TITLE_SIZE, UsableWidth(env)), start, Top(env), TITLE_STYLE);
    }
    var parts := InfoParts(meta);
    var info := InfoBlock(env, parts, title.at);
    if parts != [] {
      PlaceLinesInBand([Join(parts, INFO_SEPARATOR)], title.at, Top(env), INFO_STYLE);
    }
    TextAboveAppend(title.log, info.log, MARGIN + 12.0);
    var header := Header(env, meta);
    NodesBlockInBand(env, nodes, header.at);
    TextAboveAppend(header.log, NodesBlock(env, nodes, header.at).log, MARGIN + 12.0);
  }

  // ------------------------------------------------------------ advances

  /**
   * While the lines fit above the limit there is no break: line `j` is drawn
   * `j` advances below the cursor on the same page, and the cursor ends
   * `|lines|` advances lower.
   */
  lemma PlaceLinesNoBreak(lines: seq<string>, c: Cursor, top: real, style: Style)
    requires style.advance >= 0.0
    requires lines != [] ==> Lowered(c.y, |lines| - 1, style.advance) >= style.limit
    ensures PlaceLines(lines, c, top, style).at == Cursor(c.page, Lowered(c.y, |lines|, style.advance))
    ensures forall j :: 0 <= j < |PlaceLines(lines, c, top, style).log| ==>
              Pos(PlaceLines(lines, c, top, style).log[j]) == Cursor(c.page, Lowered(c.y, j, style.advance))
  {
    NoBreakEnd(lines, c, top, style);
    forall j | 0 <= j < |PlaceLines(lines, c, top, style).log|
      ensures Pos(PlaceLines(lines, c, top, style).log[j]) == Cursor(c.page, Lowered(c.y, j, style.advance))
    {
      NoBreakLine(lines, c, top, style, j);
    }
  }

  /** `y` lowered by `k` advances. */
  function Lowered(y: real, k: nat, adv: real): real
    decreases k
  {
    if k == 0 then y else Lowered(y - adv, k - 1, adv)
  }

  lemma {:induction false} LoweredIsProduct(y: real, k: nat, adv: real)
    ensures Lowered(y, k, adv) == y - (k as real) * adv
    decreases k
  {
    if k > 0 {
      LoweredIsProduct(y - adv, k - 1, adv);
      assert ((k - 1) as real) == (k as real) - 1.0;
      OneStepLess(y, k as real, adv);
    }
  }

  /** Going down by non-negative advances never goes up. */
  lemma {:induction false} LoweredBelow(y: real, k: nat, adv: real)
    requires adv >= 0.0
    ensures Lowered(y, k, adv) <= y
    decreases k
  {
    if k > 0 {
      LoweredBelow(y - adv, k - 1, adv);
    }
  }

  /** The first of the lines that fit is drawn at the cursor, and the rest still fit one advance lower. */
  lemma NoBreakFirst(lines: seq<string>, c: Cursor, top: real, style: Style)
    requires style.advance >= 0.0 && lines != []
    requires Lowered(c.y, |lines| - 1, style.advance) >= style.limit
    ensures var next := Cursor(c.page, c.y - style.advance);
      && (lines[1..] != [] ==> Lowered(next.y, |lines[1..]| - 1, style.advance) >= style.limit)
      && PlaceLines(lines, c, top, style)
         == Placed(PlaceLines(lines[1..], next, top, style).at,
                   [DrawString(c.page, style.x, c.y, style.size, lines[0])] + PlaceLines(lines[1..], next, top, style).log)
  {
    LoweredBelow(c.y, |lines| - 1, style.advance);
  }

  lemma {:induction false} NoBreakEnd(lines: seq<string>, c: Cursor, top: real, style: Style)
    requires style.advance >= 0.0
    requires lines != [] ==> Lowered(c.y, |lines| - 1, style.advance) >= style.limit
    ensures PlaceLines(lines, c, top, style).at == Cursor(c.page, Lowered(c.y, |lines|, style.advance))
    decreases |lines|
  {
    if lines != [] {
      NoBreakFirst(lines, c, top, style);
      NoBreakEnd(lines[1..], Cursor(c.page, c.y - style.advance), top, style);
    }
  }

  lemma {:induction false} NoBreakLine(lines: seq<string>, c: Cursor, top: real, style: Style, j: nat)
    requires style.advance >= 0.0
    requires lines != [] ==> Lowered(c.y, |lines| - 1, style.advance) >= style.limit
    requires j < |PlaceLines(lines, c, top, style).log|
    ensures Pos(PlaceLines(lines, c, top, style).log[j]) == Cursor(c.page, Lowered(c.y, j, style.advance))
    decreases j
  {
    if lines != [] {
      NoBreakFirst(lines, c, top, style);
      if j > 0 {
        NoBreakLine(lines[1..], Cursor(c.page, c.y - style.advance), top, style, j - 1);
      }
    }
  }

  /** One advance down, then `k - 1` more, is `k` advances down. */
  lemma OneStepLess(y: real, k: real, adv: real)
    ensures (y - adv) - (k - 1.0) * adv == y - k * adv
  {
  }

  /**
   * Break before draw: the first line goes to the top of a new page exactly
   * when the cursor is below the limit, and otherwise exactly at the cursor.
   */
  lemma BreakExactlyBelowLimit(lines: seq<string>, c: Cursor, top: real, style: Style)
    requires lines != []
    ensures var log := PlaceLines(lines, c, top, style).log;
      && log != []
      && (c.y < style.limit <==> Pos(log[0]) == Cursor(c.page + 1, top))
      && (c.y >= style.limit <==> Pos(log[0]) == c)
  {
  }

  /** A block whose lines all fit above the limit ends `|lines|` advances and the gap below where it began. */
  lemma BlockNoBreak(lines: seq<string>, c: Cursor, top: real, style: Style, gap: real)
    requires style.advance >= 0.0
    requires lines != [] ==> Lowered(c.y, |lines| - 1, style.advance) >= style.limit
    ensures Block(lines, c, top, style, gap).at == Cursor(c.page, Lowered(c.y, |lines|, style.advance) - gap)
  {
    NoBreakEnd(lines, c, top, style);
  }

  /** A body block at a fixed advance whose lines fit: the cursor ends `n` advances and the gap lower. */
  lemma BodyBlockNoBreak(lines: seq<string>, c: Cursor, top: real, size: nat, gap: real)
    requires lines != [] ==> Lowered(c.y, |lines| - 1, (size + 2) as real) >= MARGIN + (size * 2) as real
    ensures Block(lines, c, top, BodyStyle(size), gap).at == Cursor(c.page, Lowered(c.y, |lines|, (size + 2) as real) - gap)
  {
    BlockNoBreak(lines, c, top, BodyStyle(size), gap);
  }

  /**
   * A heading whose lines all fit on the current page lowers the cursor by
   * `size + 2` per line, then by 6: 16 per line for `h1` (14 points), 14 per
   * line otherwise (12 points).
   */
  lemma HeadingAdvance(env: Env, t: string, tag: string, c: Cursor)
    requires var n := |Wrapped(t, env.measure, HeadingSize(tag), UsableWidth(env))|;
      n > 0 ==> c.y - ((n - 1) as real) * (if tag == "h1" then 16.0 else 14.0) >= MARGIN + (if tag == "h1" then 28.0 else 24.0)
    ensures var n := |Wrapped(t, env.measure, HeadingSize(tag), UsableWidth(env))|;
      NodeBlock(env, Heading(t, tag), c).at == Cursor(c.page, c.y - (n as real) * (if tag == "h1" then 16.0 else 14.0) - 6.0)
  {
    var size := HeadingSize(tag);
    var lines := Wrapped(t, env.measure, size, UsableWidth(env));
    var n := |lines|;
    assert NodeBlock(env, Heading(t, tag), c) == Block(lines, c, Top(env), BodyStyle(size), 6.0);
    var adv := if tag == "h1" then 16.0 else 14.0;
    if n > 0 {
      LoweredIsProduct(c.y, n - 1, adv);
    }
    LoweredIsProduct(c.y, n, adv);
    if tag == "h1" {
      BodyBlockNoBreak(lines, c, Top(env), 14, 6.0);
    } else {
      BodyBlockNoBreak(lines, c, Top(env), 12, 6.0);
    }
  }

  /** A paragraph whose lines all fit on the current page lowers the cursor by 13 per line, then by 8. */
  lemma ParagraphAdvance(env: Env, t: string, c: Cursor)
    requires var n := |Wrapped(t, env.measure, PARAGRAPH_SIZE, UsableWidth(env))|;
      n > 0 ==> c.y - ((n - 1) as real) * 13.0 >= MARGIN + 22.0
    ensures var n := |Wrapped(t, env.measure, PARAGRAPH_SIZE, UsableWidth(env))|;
      NodeBlock(env, Paragraph(t), c).at == Cursor(c.page, c.y - (n as real) * 13.0 - 8.0)
  {
    var lines := Wrapped(t, env.measure, PARAGRAPH_SIZE, UsableWidth(env));
    var n := |lines|;
    assert NodeBlock(env, Paragraph(t), c) == Block(lines, c, Top(env), BodyStyle(PARAGRAPH_SIZE), 8.0);
    if n > 0 {
      LoweredIsProduct(c.y, n - 1, 13.0);
    }
    LoweredIsProduct(c.y, n, 13.0);
    BodyBlockNoBreak(lines, c, Top(env), PARAGRAPH_SIZE, 8.0);
  }

  /** The information line is one 9-point string at the margin, and the cursor drops 22 points below it. */
  lemma InfoLineAdvance(env: Env, parts: seq<string>, c: Cursor)
    requires parts != []
    ensures var at := if c.y < MARGIN + 20.0 then Cursor(c.page + 1, Top(env)) else c;
      InfoBlock(env, parts, c) == Placed(Cursor(at.page, at.y - 22.0), [DrawString(at.page, MARGIN, at.y, INFO_SIZE, Join(parts, INFO_SEPARATOR))])
  {
    PlaceOneLine(Join(parts, INFO_SEPARATOR), c, Top(env), INFO_STYLE);
  }

  // -------------------------------------------------------------- pictures

  /** Downloading, opening or scaling the picture failed: nothing is drawn and the cursor stays. */
  predicate Undrawable(env: Env, url: string) {
    env.picture(url).None? || env.picture(url).value.width == 0
  }

  lemma FailedImageDrawsNothing(env: Env, url: string, caption: string, c: Cursor)
    requires Undrawable(env, url)
    ensures NodeBlock(env, Image(url, caption), c) == Placed(c, [])
  {
  }

  /**
   * The picture height is not capped: a picture taller than the page is still
   * drawn whole from the top of a page, so its bottom falls below the margin.
   */
  lemma TallImageOverflows(env: Env, url: string, caption: string, c: Cursor)
    requires c.y <= Top(env) && !Undrawable(env, url)
    requires Scale(env.picture(url).value, UsableWidth(env)).value.1 > Top(env) - MARGIN
    ensures var log := NodeBlock(env, Image(url, caption), c).log;
      log != [] && log[0].DrawImage? && log[0].y < MARGIN
  {
    var size := Scale(env.picture(url).value, UsableWidth(env)).value;
    assert NodeBlock(env, Image(url, caption), c) == ScaledImage(env, url, CaptionLines(env, caption), c, size.0, size.1);
  }

  // ----------------------------------------------------------------- marks

  /** What a draw puts on the page: the string, or the picture's URL. */
  function Mark(d: Draw): string {
    match d
    case DrawString(_, _, _, _, text) => text
    case DrawImage(_, _, _, _, _, url) => url
  }

  function Marks(log: seq<Draw>): seq<string> {
    if log == [] then [] else [Mark(log[0])] + Marks(log[1..])
  }

  lemma {:induction false} MarksAppend(a: seq<Draw>, b: seq<Draw>)
    ensures Marks(a + b) == Marks(a) + Marks(b)
  {
    if a == [] {
      assert a + b == b;
    } else {
      assert (a + b)[1..] == a[1..] + b;
      MarksAppend(a[1..], b);
    }
  }

  /** The line loop draws every line, once each, in order. */
  lemma {:induction false} PlaceLinesMarks(lines: seq<string>, c: Cursor, top: real, style: Style)
    ensures Marks(PlaceLines(lines, c, top, style).log) == lines
    decreases |lines|
  {
    if lines != [] {
      var at := if c.y < style.limit then Cursor(c.page + 1, top) else c;
      var next := Cursor(at.page, at.y - style.advance);
      PlaceLinesMarks(lines[1..], next, top, style);
      var d := DrawString(at.page, style.x, at.y, style.size, lines[0]);
      MarksAppend([d], PlaceLines(lines[1..], next, top, style).log);
      assert Marks([d]) == [lines[0]];
    }
  }

  /** The text a node contributes to the page: its wrapped lines, or the picture and its wrapped caption. */
  function NodeScript(env: Env, node: ContentNode): seq<string> {
    match node
    case Heading(t, tag) => Wrapped(t, env.measure, HeadingSize(tag), UsableWidth(env))
    case Paragraph(t) => Wrapped(t, env.measure, PARAGRAPH_SIZE, UsableWidth(env))
    case Image(url, caption) =>
      if Undrawable(env, url) then []
      else [url] + (if caption == "" then [] else Wrapped(caption, env.measure, CAPTION_SIZE, UsableWidth(env)))
  }

  function NodesScript(env: Env, nodes: seq<ContentNode>): seq<string> {
    if nodes == [] then [] else NodeScript(env, nodes[0]) + NodesScript(env, nodes[1..])
  }

  lemma NodeBlockMarks(env: Env, node: ContentNode, c: Cursor)
    ensures Marks(NodeBlock(env, node, c).log) == NodeScript(env, node)
  {
    match node
    case Heading(t, tag) =>
      PlaceLinesMarks(Wrapped(t, env.measure, HeadingSize(tag), UsableWidth(env)), c, Top(env), BodyStyle(HeadingSize(tag)));
    case Paragraph(t) =>
      PlaceLinesMarks(Wrapped(t, env.measure, PARAGRAPH_SIZE, UsableWidth(env)), c, Top(env), BodyStyle(PARAGRAPH_SIZE));
    case Image(url, caption) =>
      if !Undrawable(env, url) {
        var size := Scale(env.picture(url).value, UsableWidth(env)).value;
        assert NodeBlock(env, node, c) == ScaledImage(env, url, CaptionLines(env, caption), c, size.0, size.1);
        ScaledImageMarks(env, url, CaptionLines(env, caption), c, size.0, size.1);
      }
  }

  /** A drawn picture shows its URL, then its wrapped caption. */
  lemma ScaledImageMarks(env: Env, url: string, caption: Option<seq<string>>, c: Cursor, w: real, h: real)
    ensures Marks(ScaledImage(env, url, caption, c, w, h).log) == [url] + caption.GetOr([])
  {
    var at := if c.y - h < MARGIN then Cursor(c.page + 1, Top(env)) else c;
    var picture := DrawImage(at.page, MARGIN, at.y - h, w, h, url);
    var below := Cursor(at.page, at.y - (h + 6.0));
    ScaledImageIs(env, url, caption, c, w, h, at);
    CaptionedMarks(env, picture, caption, below);
  }

  /** A picture with a caption shows the picture's mark, then the caption's wrapped lines. */
  lemma CaptionedMarks(env: Env, picture: Draw, caption: Option<seq<string>>, below: Cursor)
    ensures Marks(Captioned(env, picture, caption, below).log) == [Mark(picture)] + caption.GetOr([])
  {
    assert Marks([picture]) == [Mark(picture)];
    if caption.Some? {
      var lines := caption.value;
      var cap := PlaceLines(lines, below, Top(env), CAPTION_STYLE).log;
      PlaceLinesMarks(lines, below, Top(env), CAPTION_STYLE);
      MarksAppend([picture], cap);
    }
  }

  lemma {:induction false} NodesBlockMarks(env: Env, nodes: seq<ContentNode>, c: Cursor)
    ensures Marks(NodesBlock(env, nodes, c).log) == NodesScript(env, nodes)
    decreases |nodes|
  {
    if nodes != [] {
      var first := NodeBlock(env, nodes[0], c);
      NodeBlockMarks(env, nodes[0], c);
      NodesBlockMarks(env, nodes[1..], first.at);
      MarksAppend(first.log, NodesBlock(env, nodes[1..], first.at).log);
    }
  }

  /**
   * The document draws the title lines, the information line, then every
   * node's text in node order, each exactly once; a picture that could not
   * be drawn contributes nothing.
   */
  lemma DocumentMarks(env: Env, meta: Article, nodes: seq<ContentNode>)
    ensures Marks(Document(env, meta, nodes).log)
         == (if meta.title == "" then [] else Wrapped(meta.title, env.measure, TITLE_SIZE, UsableWidth(env)))
          + (if InfoParts(meta) == [] then [] else [Join(InfoParts(meta), INFO_SEPARATOR)])
          + NodesScript(env, nodes)
  {
    var start := Cursor(0, Top(env));
    var title := TitleBlock(env, meta);
    if meta.title != "" {
      PlaceLinesMarks(Wrapped(meta.title, env.measure, TITLE_SIZE, UsableWidth(env)), start, Top(env), TITLE_STYLE);
    }
    var parts := InfoParts(meta);
    var info := InfoBlock(env, parts, title.at);
    if parts != [] {
      PlaceLinesMarks([Join(parts, INFO_SEPARATOR)], title.at, Top(env), INFO_STYLE);
    }
    MarksAppend(title.log, info.log);
    var header := Header(env, meta);
    NodesBlockMarks(env, nodes, header.at);
    MarksAppend(header.log, NodesBlock(env, nodes, header.at).log);
  }
}
