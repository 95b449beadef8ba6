# Web page scraper: a verified model of its core

`webpage_scraper2.py` is a desktop tool. It fetches a web article and pulls out its metadata and an ordered stream of content nodes. It then writes the article as plain text and as a paginated PDF. This project models in Dafny the deterministic logic under its GUI and network plumbing, and proves what that logic guarantees:

- **the fetch decision** (`fetch_html`, module `Fetch`): when a page needs a script-executing render, and whether the rendered or the static markup is returned. The static response and the browser's result are inputs, each `None` when its call raised.
- **the extraction** (`extract_more_elements`, modules `Dom` and `Extract`): three parts.
  - First-match metadata lookups over fixed key lists.
  - The choice of the main-content root: any `article`, then any `main`, then the `div`/`section` with the longest text, then the body.
  - The pre-order walk that emits headings, paragraphs and images.

  The parsed page is a tree of elements and text. `urljoin` (section 5.2 of RFC 3986) is an uninterpreted function parameter. Readability's result is an optional input.
- **the greedy line wrapper** (`split_text_to_lines`, module `Wrap`). It is an imperative loop, proved against a recursive specification, for any width function.
- **the PDF layout** (`create_pdf`, module `Pdf`): the `(page, y)` cursor with its break-before-draw checks, font sizes, advances and gaps.
  - The canvas becomes a log of draw events.
  - Page size, the width function and the image pixel sizes are inputs. An image is `None` when download or decoding failed.
  - The margin is the source's constant 28.
- **the plain-text composer, the preview and the output paths** (inside `ScraperGUI._worker`, module `Compose`).

Shared pieces are `Wrappers` (an `Option` type) and `Strings`. `Strings` holds ASCII whitespace, `strip`, `split`, `join`, `lower`/`upper`, substring and suffix tests.

Where the code and its documentation differ, the model follows the code:

- The composed text is stripped, so it does not end in the blank line the last node appends.
- The author and date key loops stop at the first `content` that is non-empty before stripping. A whitespace-only `content` therefore ends the lookup, and the later keys are never consulted (`Extract.BlankAuthorMetaStopsLookup`).
- Length thresholds count characters of the stripped text.

## Model

| member | source | states |
|---|---|---|
| Strings.Strip | webpage_scraper2.py:67 | `str.strip()` is never longer than its input and has no whitespace at either end |
| Strings.StripIsSlice | webpage_scraper2.py:67 | `strip()` keeps one contiguous slice of its input, starting right after the leading whitespace, and everything cut off before and after that slice is whitespace |
| Strings.StripEmptyIffBlank | webpage_scraper2.py:67 | `strip()` gives `""` exactly when the input is all whitespace |
| Strings.Split | webpage_scraper2.py:250 | `str.split()` yields only non-empty words without whitespace |
| Strings.SplitCovers | webpage_scraper2.py:250 | every text is the words `split()` finds set between whitespace gaps, with at least one whitespace character between two words: the words are the maximal non-whitespace runs, in order |
| Strings.SplitOfInterleave | webpage_scraper2.py:250 | conversely, any words set between whitespace gaps, non-empty between two words, split back into exactly those words |
| Strings.Interleave | webpage_scraper2.py:250 | defines the text made of gaps and words alternately, the reference for `split()` above |
| Strings.SplitBlank | webpage_scraper2.py:250 | `split()` gives no words exactly when the text is all whitespace |
| Strings.SplitJoin | webpage_scraper2.py:250 | splitting the single-space join of a list of words gives the same words back |
| Wrap.CandidateIsGlued | webpage_scraper2.py:254 | `(cur + " " + w).strip()` is `w` when `cur` is empty, else `cur + " " + w`, and is again a well-formed line |
| Wrap.Fill | webpage_scraper2.py:252-263 | defines the greedy specification: the candidate is the pending line and the next word, kept when its width is at most the maximum, else the pending line is emitted and the word starts the next |
| Wrap.Wrapped | webpage_scraper2.py:248-263 | defines the lines of a text as the greedy fill of its words from an empty line |
| Wrap.FillStartsWithCurrent | webpage_scraper2.py:253-262 | with a pending line, the first emitted line starts with the pending line's first word |
| Wrap.FillJoin | webpage_scraper2.py:253-262 | the emitted lines joined by spaces equal the pending line and the remaining words joined by spaces: no word is lost, duplicated or reordered |
| Wrap.FillNoEmptyLine | webpage_scraper2.py:258-262 | no emitted line is empty |
| Wrap.FillFitsOrWord | webpage_scraper2.py:254-260 | every emitted line fits the maximum width or is a single word of the input |
| Wrap.FillGreedy | webpage_scraper2.py:254-260 | for consecutive lines, the first line plus a space plus the next line's first word is wider than the maximum |
| Wrap.WrappedEmpty | webpage_scraper2.py:250-263 | no lines come out exactly when there are no words |
| Wrap.WrappedProperties | webpage_scraper2.py:248-263 | the greedy lines join back to the text's words, are never empty, are absent exactly for whitespace-only text, each fit or are one word, and no two consecutive lines could have been merged |
| Wrap.FillLines | webpage_scraper2.py:250-263 | the `for w in words` loop over the words of the text, measuring `(cur + " " + w).strip()` and flushing `cur` at the end, computes the greedy specification |
| Wrap.SplitTextToLines | webpage_scraper2.py:248-263 | the loop computes the greedy specification. Its lines join to the text's words. No line is empty. It gives no lines exactly for whitespace-only text. Every line fits or is one word. Consecutive lines could not have been merged |
| Fetch.Netloc | webpage_scraper2.py:72 | the network location never contains `/`, `?` or `#` |
| Fetch.IsScriptHeavyHost | webpage_scraper2.py:71-76 | defines the host test: the lower-cased network location contains one of the five script-heavy domains; a `urlparse` error counts as no |
| Fetch.NeedRender | webpage_scraper2.py:65-76 | defines `need_render`: the static fetch failed, its stripped markup is shorter than 800 characters, it holds `<noscript` or `javascript required` in any case, or the host is script-heavy |
| Fetch.StaticResult | webpage_scraper2.py:97 | defines the static fallback: the static markup or `""`, and the static URL or the original one |
| Fetch.NetlocOfHttps | webpage_scraper2.py:72 | for `https://host/path` with an ordinary host, the network location is exactly the host |
| Fetch.SubstringHostMatches | webpage_scraper2.py:72-74 | any lower-case host containing `tesla.com` (`nottesla.com` too) counts as script-heavy |
| Fetch.NoAuthorityNoHost | webpage_scraper2.py:71-76 | a URL without `//` after its scheme has an empty network location and never counts as script-heavy |
| Fetch.ShortPageNeedsRender | webpage_scraper2.py:67-68 | a static page shorter than 800 characters always asks for a render |
| Fetch.LongPlainPageNeedsNoRender | webpage_scraper2.py:65-76 | a page of at least 800 stripped characters, without script markers and not on a script-heavy host, never asks for a render |
| Fetch.FetchHtml | webpage_scraper2.py:65-97 | both directions of the choice: the rendered page is returned exactly when rendering was allowed, was needed, and produced more than 200 stripped characters; otherwise the result is the static markup or `""`, with the static URL or the original one, and `("", url)` when both fetches failed |
| Dom.Pieces | webpage_scraper2.py:189 | the strings `get_text(strip=True)` joins are each stripped and non-empty |
| Dom.Descendants | webpage_scraper2.py:187 | defines `.descendants`: every node strictly below, in pre-order, each with its parent |
| Dom.GetText | webpage_scraper2.py:189 | defines `get_text(sep, strip=True)`: the stripped non-empty strings below the node, joined by `sep` |
| Dom.JoinSolid | webpage_scraper2.py:189 | joining stripped non-empty pieces gives text with no surrounding whitespace, empty exactly when there are no pieces |
| Dom.GetTextShape | webpage_scraper2.py:189 | `get_text(strip=True)` is never padded with whitespace and is empty exactly when the node has no non-blank text |
| Dom.StringOf | webpage_scraper2.py:105 | `.string` of a text is the text; of an element with exactly one child it is that child's `.string`; of an element with no child or several it is `None` |
| Dom.TruthyAttr | webpage_scraper2.py:111 | `tag.get(key)` is truthy exactly when the attribute is present and non-empty, and then it is the attribute's value |
| Dom.FirstTruthyAttr | webpage_scraper2.py:149 | `get(k1) or get(k2) or ...` is the value of the first key whose attribute is truthy, and `None` exactly when no key has one |
| Dom.FirstWhere | webpage_scraper2.py:109-112 | the first-match loop with `break` returns the index of the first satisfying element, `None` exactly when there is none |
| Dom.FirstWhereUnique | webpage_scraper2.py:109-112 | an element that satisfies the test, with no earlier one that does, is the one found |
| Dom.Find | webpage_scraper2.py:110 | `find` returns the node of the first descendant in document order that matches, and `None` exactly when none matches |
| Dom.FindAll | webpage_scraper2.py:146 | `find_all` returns only matching nodes, every matching descendant is among them, and it is empty exactly when none matches |
| Dom.FindAllAppend | webpage_scraper2.py:146 | the matches of a walk split in two are the matches of the first part followed by those of the second: document order is kept |
| Dom.FindAllFirst | webpage_scraper2.py:146 | the first node `find_all` returns is the first matching descendant, the one `find` returns |
| Extract.MetaTag | webpage_scraper2.py:110 | the tag found is a `meta` whose `name` or `property` is the key; it is `None` exactly when no `meta` has either; whenever some `meta` has the key as its `name`, a `name` tag is returned, so `property` is consulted only when no `name` tag exists |
| Extract.MetaLookup | webpage_scraper2.py:109-112 | defines the key loop with `break`: the stripped content of the first key whose tag has a non-empty `content` |
| Extract.MetaLookupFirst | webpage_scraper2.py:109-112 | the first key with a non-empty `content` decides the lookup, whatever later keys hold |
| Extract.MetaLookupNone | webpage_scraper2.py:121-125 | the lookup finds nothing exactly when no key has a non-empty `content` |
| Extract.NameShadowsProperty | webpage_scraper2.py:110-111 | a `name=` tag for a key hides the `property=` tag for it, even when its own `content` is empty |
| Extract.AuthorFromFirstMeta | webpage_scraper2.py:108-117 | the stripped content of the first author key with content is the author when it is not blank |
| Extract.BlankAuthorMetaStopsLookup | webpage_scraper2.py:109-117 | a whitespace-only author `content` ends the key loop, and the CSS selectors alone then decide |
| Extract.RelIsAuthor | webpage_scraper2.py:113 | defines `[rel=author]`: on `a`, `link` and `area` the `rel` words joined by single spaces are `author`; on any other element the attribute is exactly `author` |
| Extract.AuthorElement | webpage_scraper2.py:113-116 | defines the selector chain: the first `[rel=author]` element, else the first `.author`, else `.byline`, else `[itemprop=author]` |
| Extract.Author | webpage_scraper2.py:107-117 | defines `out['author']`: the meta author when it strips to something, else the selected element's text, else `""` |
| Extract.Date | webpage_scraper2.py:119-129 | defines `out['date']`: the meta date when it strips to something, else the first `time` element's stripped `datetime`, or its text, else `""` |
| Extract.DateFromTimeElement | webpage_scraper2.py:125-128 | without date metadata, the first `time` element's stripped `datetime` is the date |
| Extract.Tags | webpage_scraper2.py:133-138 | without a `meta name="keywords"` the tags are `""`; otherwise they are the first such tag's `content` stripped (`""` when missing or blank), never padded with whitespace |
| Extract.LeadImage | webpage_scraper2.py:140-155 | a non-empty `og:image` content (the `property` tag first, else the `name` tag) wins, resolved against the base URL; otherwise, when none of the first 30 images has a source, the lead image is `""` |
| Extract.LeadImageFromWindow | webpage_scraper2.py:145-154 | otherwise the lead image is the resolved source of the first of the first 30 images that has a `src`, `data-src` or `data-original` |
| Extract.LeadWindow | webpage_scraper2.py:146-148 | `imgs[:30]` is at most 30 images, the leading part of all `img` elements in document order, and all of them when there are fewer |
| Extract.Title | webpage_scraper2.py:105-167 | the title is readability's non-empty short title when there is one; otherwise the first `title` element's `.string`, stripped, or `""` without a `title` element or a `.string` |
| Extract.FirstMax | webpage_scraper2.py:175-181 | the strictly-greater scan from 0 finds the first longest positive length. It finds nothing exactly when every length is 0 |
| Extract.ArticleFirst | webpage_scraper2.py:171-172 | without readability, any `article` is the content root, ahead of every `main`, `div` and `section` |
| Extract.LongestCandidateWins | webpage_scraper2.py:171-183 | without `article` or `main`, two outcomes. If every candidate's text is empty, the root is the body (or the document). Otherwise it is a candidate whose text is non-empty, at least as long as every candidate's, and longer than every earlier one's |
| Extract.LongestCandidate | webpage_scraper2.py:174-182 | the `max_len`/`best` loop computes that choice |
| Extract.FallbackRoot | webpage_scraper2.py:171-183 | defines the content root without readability: the first `article`, else the first `main`, else the longest `div`/`section`, else the body or the document |
| Extract.ContentRoot | webpage_scraper2.py:157-183 | defines `main_content`: readability's summary when it is available, else the fallback root |
| Extract.Caption | webpage_scraper2.py:198-206 | a `figcaption` under the image's parent with non-blank text gives that stripped text as the caption; without one, or when its text is empty, the caption is the image's `alt`, or `""` |
| Extract.NodeFor | webpage_scraper2.py:187-207 | one walk step emits at most one node. A heading comes from `h1`-`h4` with non-empty text. A paragraph comes from `p`/`blockquote`/`li` with more than 10 characters. An image comes from an `img` with a `src`, `data-src` or `data-original`, resolved, with its caption. Nothing comes exactly when the element passes no filter |
| Extract.NodeStreamAppend | webpage_scraper2.py:186-208 | the nodes of a walk are the nodes of its parts in order, so nodes keep document order |
| Extract.NodeStreamWellFormed | webpage_scraper2.py:188-195 | every heading is stripped and non-empty and tagged `h1`-`h4`; every paragraph is stripped and longer than 10 characters |
| Extract.NestedParagraphInQuote | webpage_scraper2.py:187-195 | a `p` inside a `blockquote` yields two paragraph nodes, the quotation's first |
| Extract.BuildNodes | webpage_scraper2.py:185-208 | the loop over `descendants` appends exactly the node stream of the walk |
| Extract.NodeStream | webpage_scraper2.py:186-208 | defines the node list of a walk: each step's node, in walk order |
| Extract.ExtractMoreElements | webpage_scraper2.py:102-209 | the whole extraction gives the title, author, date, tags, lead image and node stream of the specification, and its nodes are well formed |
| Extract.Extracted | webpage_scraper2.py:102-209 | defines the dictionary the extraction returns from its title, author, date, tags, lead image and node-stream parts |
| Pdf.Scale | webpage_scraper2.py:333-335 | the displayed width is the smaller of the usable width and the pixel width (it is at most each and equal to one of them); the height keeps the aspect ratio; a zero pixel width makes the division raise |
| Pdf.PlaceLines | webpage_scraper2.py:309-313 | defines the line loop: break to the top of a new page when the cursor is below the limit, draw, advance |
| Pdf.ImageBlock | webpage_scraper2.py:325-351 | defines an image node: nothing when the picture cannot be fetched, opened or scaled, else the scaled picture |
| Pdf.ScaledImage | webpage_scraper2.py:336-349 | defines a scaled picture: a break when its bottom would fall below the margin, the picture, 6 points, the caption |
| Pdf.NodeBlock | webpage_scraper2.py:304-351 | defines one node: heading lines at 14 or 12 points then 6, paragraph lines at 11 points then 8, or the image |
| Pdf.NodesBlock | webpage_scraper2.py:303-351 | defines the node loop: each node from where the previous one left the cursor |
| Pdf.InfoParts | webpage_scraper2.py:285-291 | defines the information parts: `By author`, the date, `Tags: tags`, each when not empty |
| Pdf.TitleBlock | webpage_scraper2.py:273-282 | defines the title section: the title wrapped at 18 points from the top of the first page, then 6 points |
| Pdf.InfoBlock | webpage_scraper2.py:292-298 | defines the information line: one unwrapped 9-point line of the joined parts, then 22 points |
| Pdf.Document | webpage_scraper2.py:265-354 | defines the whole PDF: the title, the information line, then the nodes, with the log of everything drawn |
| Pdf.ScaleNoLarger | webpage_scraper2.py:334-335 | the displayed height is never negative nor taller than the pixel height |
| Pdf.ScaledImageIs | webpage_scraper2.py:336-339 | the picture is drawn at the cursor, or at the top of a new page when its bottom would fall below the margin, and the caption starts `h + 6` points below its top |
| Pdf.DrawLines | webpage_scraper2.py:309-313 | the per-line loop (break when below the limit, draw, advance) computes `PlaceLines` |
| Pdf.DrawPicture | webpage_scraper2.py:325-351 | the image branch computes `ImageBlock`: a break if the picture would cross the margin, the picture, 6 points, then the caption |
| Pdf.DrawScaled | webpage_scraper2.py:336-349 | a scaled picture computes `ScaledImage`: a break if its bottom would cross the margin, the picture, 6 points, then the caption |
| Pdf.DrawCaptioned | webpage_scraper2.py:338-349 | the picture, then the caption block only when the caption is non-empty |
| Pdf.DrawCaption | webpage_scraper2.py:341-349 | the caption wrapped at 9 points, set by the line loop in the caption style, then 6 points |
| Pdf.DrawNode | webpage_scraper2.py:303-351 | one iteration of the node loop computes `NodeBlock` |
| Pdf.DrawTitle | webpage_scraper2.py:273-282 | the title section computes `TitleBlock` |
| Pdf.DrawInfo | webpage_scraper2.py:284-298 | the information section computes `InfoBlock` over `By author`, the raw date and `Tags: tags` |
| Pdf.CreatePdf | webpage_scraper2.py:265-354 | the whole drawing sequence equals the draw log of the `Document` specification |
| Pdf.PlaceLinesFlows | webpage_scraper2.py:309-313 | a run of lines is drawn in reading order, never above where it started, with the cursor left below it |
| Pdf.BlockFlows | webpage_scraper2.py:309-314 | the same holds with the gap after the block |
| Pdf.CaptionedFlows | webpage_scraper2.py:338-349 | a picture followed by its caption lines is drawn in reading order |
| Pdf.ScaledImageFlows | webpage_scraper2.py:336-349 | a picture and its caption are drawn in reading order |
| Pdf.ImageFlows | webpage_scraper2.py:325-351 | an image node is drawn in reading order, whether or not the picture could be drawn |
| Pdf.NodeBlockFlows | webpage_scraper2.py:303-351 | every node is drawn in reading order |
| Pdf.NodesBlockFlows | webpage_scraper2.py:303-351 | the node loop draws in reading order |
| Pdf.DocumentInReadingOrder | webpage_scraper2.py:265-354 | the anchors of all draws (string baselines, picture lower-left corners) come in reading order: each is strictly below the previous one on its page, or on a later page. Glyph extents are not modelled, so this orders anchors and does not rule out overlap |
| Pdf.PlaceLinesInBand | webpage_scraper2.py:309-313 | when a page starts no lower than the limit, every line is drawn at the style's x and size and at or above the limit |
| Pdf.NodeBlockInBand | webpage_scraper2.py:303-351 | font sizes and floors per node kind. Heading lines are 14 points for `h1` and 12 otherwise, each at or above `margin + 2*size`. Paragraph lines are 11 points at or above `margin + 22`. No string of a node falls below `margin + 12` |
| Pdf.ScaledImageInBand | webpage_scraper2.py:336-349 | the picture is drawn first. Every caption line is at `x + 4` in 9 points, at or above `margin + 12` |
| Pdf.CaptionedInBand | webpage_scraper2.py:338-349 | after the picture, every caption line is at `x + 4` in 9 points, at or above `margin + 12` |
| Pdf.NodesBlockInBand | webpage_scraper2.py:303-351 | no string of the node loop falls below `margin + 12` |
| Pdf.DocumentInBand | webpage_scraper2.py:273-351 | on a page tall enough for a title line, no string of the PDF is drawn below `margin + 12` |
| Pdf.PlaceLinesNoBreak | webpage_scraper2.py:309-313 | while the lines fit above the limit there is no break: line `j` is drawn `j` advances below the cursor on the same page, and the cursor ends `|lines|` advances lower |
| Pdf.LoweredIsProduct | webpage_scraper2.py:312 | lowering the cursor `k` times by the same advance lowers it by `k` times the advance |
| Pdf.BreakExactlyBelowLimit | webpage_scraper2.py:310-311 | a line goes to the top of a new page exactly when the cursor is below the limit, and is drawn at the cursor exactly when it is not |
| Pdf.BlockNoBreak | webpage_scraper2.py:309-314 | a block that fits ends its line advances and its gap below its start |
| Pdf.HeadingAdvance | webpage_scraper2.py:305-314 | a heading that fits lowers the cursor by `size + 2` per line, 16 for `h1` (14 points) and 14 otherwise (12 points), then by 6 |
| Pdf.ParagraphAdvance | webpage_scraper2.py:315-324 | a paragraph that fits lowers the cursor by 13 per line, then by 8 |
| Pdf.InfoLineAdvance | webpage_scraper2.py:292-298 | the information line is one 9-point string at the margin after a break below `margin + 20`, and the cursor drops 22 points |
| Pdf.FailedImageDrawsNothing | webpage_scraper2.py:327-351 | an image that could not be downloaded, opened or scaled draws nothing and leaves the cursor where it was |
| Pdf.TallImageOverflows | webpage_scraper2.py:333-339 | the picture height is not capped: one taller than a page is drawn with its bottom below the margin |
| Pdf.PlaceLinesMarks | webpage_scraper2.py:309-313 | the line loop draws every line once, in order |
| Pdf.NodeBlockMarks | webpage_scraper2.py:303-351 | a node draws its wrapped lines, or its picture and wrapped caption, or nothing for a failed picture |
| Pdf.ScaledImageMarks | webpage_scraper2.py:336-349 | a drawn picture shows its URL, then its wrapped caption lines |
| Pdf.CaptionedMarks | webpage_scraper2.py:338-349 | the picture's mark comes first, then every caption line once, in order |
| Pdf.NodesBlockMarks | webpage_scraper2.py:303-351 | the node loop draws the nodes' text in node order |
| Pdf.DocumentMarks | webpage_scraper2.py:273-351 | the PDF shows the wrapped title, the `"  \|  "`-joined information line, then every node's text in node order, each exactly once |
| Compose.NodeParts | webpage_scraper2.py:519-528 | every node contributes two or three lines, the last of them blank |
| Compose.NodesParts | webpage_scraper2.py:519-528 | defines the lines of a run of nodes: each node's lines in turn |
| Compose.HeaderParts | webpage_scraper2.py:508-517 | defines the metadata lines: the title and a blank line, `By`, `Published:` and `Tags:` lines when set, then a blank line |
| Compose.PlainText | webpage_scraper2.py:530 | defines `full_text`: the header and node lines joined by newlines, stripped |
| Compose.NodesPartsAppend | webpage_scraper2.py:519-528 | the lines of a run of nodes are each node's lines, in node order |
| Compose.ComposeHeader | webpage_scraper2.py:508-517 | the header lines: the title and a blank line, then `By`, `Published:` and `Tags:` lines only for non-empty fields, then a blank line |
| Compose.ComposeNode | webpage_scraper2.py:519-528 | one node's lines: the upper-cased heading, the paragraph as it is, or `[Image: url]` with an optional `Caption:` line; then a blank line |
| Compose.ComposeParts | webpage_scraper2.py:508-528 | the `text_parts` list is the header lines followed by each node's lines, in node order |
| Compose.ComposePlainText | webpage_scraper2.py:507-530 | the loop builds the header and node lines, joins them with newlines and strips the result |
| Compose.EmptyArticleText | webpage_scraper2.py:507-530 | an article with no metadata and no nodes gives an empty text |
| Compose.TitleOpensText | webpage_scraper2.py:509-530 | a title without surrounding whitespace is the very beginning of the text |
| Compose.Preview | webpage_scraper2.py:533 | a text of up to 1200 characters is shown whole. A longer one shows its first 1200 characters followed by `...`, 1203 in all |
| Compose.SplitExtRoot | webpage_scraper2.py:552 | `splitext(p)[0]` is a prefix of `p`. A cut removes the last dot of the last component and what follows it, and that component has a character other than a dot before it. An uncut path has no dot in its last component that follows a character other than a dot |
| Compose.ForceSuffix | webpage_scraper2.py:549-552 | defines the suffix rule: keep the path when its lower-cased form ends in the extension, else replace its extension |
| Compose.TxtPath | webpage_scraper2.py:549-552 | defines `txt_path` |
| Compose.PdfPath | webpage_scraper2.py:563-566 | defines `pdf_path` |
| Compose.ForceSuffixProperties | webpage_scraper2.py:549-552 | the forced path ends in the extension, ignoring case. A path that already does is kept as it is. Otherwise its extension is replaced. Forcing twice changes nothing |
| Compose.OutputPathsEndRight | webpage_scraper2.py:548-566 | the text path always ends in `.txt` and the PDF path in `.pdf`, ignoring case |
| Compose.LeadingDotsAreNotAnExtension | webpage_scraper2.py:552 | a last path component that is only a leading dot and a name (`.bashrc`) has no extension to replace |

## Left out

- The GUI (`ScraperGUI` widgets, styling, message boxes, the metadata box) and the worker thread are user interface and concurrency.
- HTTP requests, the headless browser launch, navigation and waits, and `download_image_local` with its hash-named temporary files are I/O. Their results are inputs: a page or `None`, and pixel sizes or `None`.
- `register_dejavu` and `open_file` probe the file system or start programs. The font enters only through the width function.
- HTML parsing is an input tree. Comments, `script` and `style` strings, entity decoding and parser repairs are not modelled.
- `get_text` and `split`/`strip`/`lower`/`upper` treat only ASCII whitespace and ASCII letters. Python's Unicode rules are not modelled.
- Readability's `summary` and `short_title` are an optional input, not modelled themselves. An exception inside readability is the `None` input.
- `urljoin` (section 5.2 of RFC 3986) is an uninterpreted parameter.
- Page and image sizes are exact reals, not IEEE doubles.
- Reportlab's `stringWidth` is an arbitrary function. The canvas becomes a log of `drawString`/`drawImage` events. Font switches and `save` are not logged.
- `download_image_local` is called afresh for every image node, so the same URL could succeed once and fail later. The model's `Env.picture` is one function of the URL, so a repeated URL always gives the same result. No stated property depends on this.
- An exception raised mid-image after `showPage` (from `ImageReader` or `drawImage`) would leave an empty page. The model only has the failure before anything is drawn.
- Fetch.Netloc: does not model `urlsplit`'s removal of leading control characters, spaces, tabs and newlines, nor its validation of bracketed IPv6 hosts. The contract states only what the delimiter scan guarantees.
- Compose.SplitExtRoot: models POSIX `os.path.splitext`. The Windows rule (`\` and drive letters) is not modelled.
- The save-to-file steps (`open(..., "w")`, `create_pdf`'s `path`) write files and are left out.
