# ell-reports build script: preprocessing, outline and index, in Dafny

`build.py` turns markdown reports into styled HTML (then PDF) and writes a
download page. This project models its text-processing core:

- **Outline extraction** (`extract_toc_items`). `## ` and `### ` headings become
  'main' and 'sub' entries, with leading `#`s, surrounding whitespace and link
  syntax `[label](url)` removed.
- **Markdown clean-up**:
  - `strip_existing_toc` drops a hand-written "## Table of Contents" section.
  - `strip_first_heading` drops the `# ` title and the blank, italic or `---`
    lines after it.
- **Report assembly** (`build_html`). The table-of-contents list is built with
  its `<li>` loop, and the cover, outline and converted body are placed into
  the page template.
- **Download page** (`build_index`):
  - each build result gets a size label ("N/A" or `x.y MB`);
  - the results are split into the Labs and Cranberry lists;
  - each list is rendered as cards (`render_cards`).

The loops of the source are Dafny methods with `while` loops. Each one is
proved equal to a recursive function over the lines (or entries), and the
properties are lemmas about those functions. Python's `str.split('\n')` and
`'\n'.join` are `Text.Split` and `Text.Join`, proved inverse to each other.
`str.strip` removes exactly the characters for which Python's `str.isspace`
holds. `html.escape` is a five-character substitution with an inverse used as
its proof partner. Fixed HTML templates are `Html.Fill` over their literal
pieces, and `Html.Match` reads a filled template back.

The code is followed where its behaviour is not what one might expect:

- Cleaning is not idempotent. A second `# ` line survives the first pass and
  is removed by the second (`ReportLayout.CleanNotIdempotent`).
- The outline is extracted from the original text, so `### ` lines listed
  inside a hand-written table of contents appear in the outline even though
  the cleaned text no longer contains them (`ReportLayout.ReportCleaned`).
- The test `not startswith('## ')` in `strip_first_heading` (build.py:395) is
  always true once `startswith('# ')` holds. It is kept as written.

## Model

| member | source | states |
|---|---|---|
| Text.StripSpec | build.py:356 | `strip()` returns a contiguous piece of the line that neither starts nor ends with whitespace, and everything cut off was whitespace |
| Text.TrimLeftSpec | build.py:356 | the left trim removes exactly the longest leading whitespace run |
| Text.TrimRightSpec | build.py:356 | the right trim removes exactly the longest trailing whitespace run |
| Text.StripIdempotent | build.py:356 | stripping a stripped line changes nothing |
| Text.LStripHashSpec | build.py:358 | `lstrip('#')` removes exactly the leading run of `#` |
| Text.SplitNoNewlines | build.py:370 | no piece of `split('\n')` holds a newline |
| Text.JoinSplit | build.py:370-386 | joining the split lines with `\n` gives back the text |
| Text.SplitJoin | build.py:370-386 | splitting joined newline-free lines gives back the lines |
| Html.Escape | build.py:426 | escaped text holds no raw `<`, `>`, `"` or `'`, is never shorter, and is unchanged when it had no markup character |
| Html.EscapeCharSafe | build.py:426 | each character escapes to a non-empty piece free of `<`, `>`, `"` and `'`, and a character that is no markup stays as it is |
| Html.UnescapeEscape | build.py:426 | escaping loses nothing: the text can be read back from its escaped form |
| Html.MatchFill | build.py:426 | a filled template reads back as its holes when no hole holds the first character of the text after it |
| Links.MatchLinkExact | build.py:360 | the scan finds a link `[label](url)` at the front exactly when the pattern matches there: label up to the first `]`, url up to the first `)`, both non-empty |
| Links.RemoveLinks | build.py:360 | the title never grows and is unchanged when it has no `[` |
| Links.LinkBecomesLabel | build.py:360 | a leading link is replaced by its label and the scan continues after `)` |
| Toc.HeadingTitle | build.py:358-360 | a title without `[` is the heading with its leading `#`s and surrounding whitespace removed |
| Toc.EntryOfSpec | build.py:356-365 | a stripped `## ` line other than the table-of-contents heading gives exactly one 'main' entry, a `### ` line exactly one 'sub' entry, both ways; the title is the cleaned heading text |
| Toc.OtherHeadingsIgnored | build.py:357-362 | `# ` and `#### ` lines give no entry |
| Toc.ExtractTocItems | build.py:352-366 | the loop returns the outline of the split text |
| Toc.TocItemsAppend | build.py:355-366 | the outline of concatenated lines is the concatenation of the outlines, so entries keep document order |
| Toc.TocItemsOfLine | build.py:357-365 | one line contributes at most one entry |
| Toc.TocItemsBound | build.py:355-366 | there are never more entries than lines |
| StripToc.StripExistingToc | build.py:368-386 | the loop with `in_toc` returns the lines kept by the two-state machine, joined |
| StripToc.StripTocSubseq | build.py:373-385 | the output is the input with lines deleted: kept lines are unmodified and in order |
| StripToc.StripTocIdentity | build.py:374-385 | without a table-of-contents heading nothing is removed |
| StripToc.StripTocRemovesHeadings | build.py:374-376 | no line starting with the table-of-contents heading survives, whatever the state |
| StripToc.StripTocIdempotent | build.py:368-386 | stripping the kept lines again removes nothing |
| StripToc.StripTocTextIdempotent | build.py:368-386 | stripping the text twice is stripping it once |
| StripToc.StripTocKeepsPrefix | build.py:385 | lines outside a table of contents are kept |
| StripToc.StripTocSkips | build.py:377-384 | while skipping, lines that end nothing (including `### ` headings) are dropped |
| StripToc.TocSectionRemoved | build.py:374-384 | a whole section goes (heading, listed lines, closing divider); a closing `#`/`##` heading stays |
| StripHeading.StripFirstHeading | build.py:388-407 | the loop with `found_h1` and `skip_meta` returns the lines kept by the three-phase machine, joined |
| StripHeading.FirstTitleFirst | build.py:394-398 | the search for the title stops at the first `# ` line: the line it stops at is a title line and no line before it is |
| StripHeading.MetaRunAllMeta | build.py:399-405 | the metadata run after the title is made of blank, italic or `---` lines only and ends at the first other line |
| StripHeading.MetaRunEndsAt | build.py:399-405 | a stretch of metadata lines followed by another line is exactly the metadata run |
| StripHeading.KeepsAfterMeta | build.py:399-406 | after the metadata run every line is kept |
| StripHeading.DropsMetaRun | build.py:399-406 | right after the title the metadata run is dropped and the rest is kept |
| StripHeading.StripHeadingSpec | build.py:394-406 | the output is the reference `KeptLines`: the lines before the first title plus the lines after its metadata run; without a title, the input |
| StripHeading.KeepsBeforeTitle | build.py:395-406 | every line before the first title line is kept unchanged |
| StripHeading.TitleHere | build.py:395-405 | from the title line on, the title and its metadata run go and everything after is kept |
| StripHeading.StripFirstHeadingDrops | build.py:388-407 | the whole-document form of StripHeadingSpec: the kept lines are the lines before the first title line followed by the lines after its metadata run, and all lines when there is no title |
| StripHeading.StripHeadingIdentity | build.py:395-406 | without a title line nothing is removed |
| Document.TocLiIsFilled | build.py:425-426 | an item is the `<li…>` template around the escaped title |
| Document.TocLiEscapes | build.py:425-426 | the class attribute is present exactly for 'sub' entries and the title text holds no raw angle bracket |
| Document.ParseTocLi | build.py:425-426 | one item reads back as its entry: kind from the class, title unescaped |
| Document.ParseTocLis | build.py:424-426 | the items read back as the entries, one per entry, in order |
| Document.TocBlockRoundTrip | build.py:423-427 | the table-of-contents block reads back as exactly the outline |
| Document.BuildHtml | build.py:409-464 | the document is the template filled with the escaped title, organisation and subtitle, the stylesheet, the outline block of the ORIGINAL text and the converted CLEANED text |
| ReportLayout.TitleLineFacts | build.py:374-395 | a title line opens no table of contents, is no metadata line and gives no entry |
| ReportLayout.MetaLineFacts | build.py:374-402 | a metadata line opens no table of contents and gives no entry |
| ReportLayout.ReportStripToc | build.py:368-386 | on a report laid out as title, metadata, table of contents, `---` and body, the table-of-contents pass leaves title, metadata and body |
| ReportLayout.ReportStripHeading | build.py:388-407 | the title pass then leaves exactly the body |
| ReportLayout.ReportOutline | build.py:352-366 | the outline of such a report is the outline of the listed lines followed by that of the body |
| ReportLayout.ReportCleaned | build.py:413-417 | for such a report the cleaned text is the body, the outline also holds the entries of the listed lines, and the outline of the cleaned text is only the body's |
| ReportLayout.CleanTwoTitles | build.py:395-406 | with two `# ` lines only the first is removed |
| ReportLayout.CleanTitleOnly | build.py:395-398 | a lone title line cleans to the empty text |
| ReportLayout.CleanNotIdempotent | build.py:416-417 | cleaning the cleaned text can remove more |
| ReportLayout.MainHeadingEntry | build.py:357-362 | a `## ` line whose title has no hash at the front, no link, no surrounding space and does not start with "Table of Contents" gives the main entry with exactly that title |
| ReportLayout.SubHeadingEntry | build.py:357-362 | a `### ` line with such a title gives the sub entry with exactly that title |
| ReportLayout.EndToEndExample | build.py:352-417 | on the report "# T", "*sub*", "---", "## Table of Contents", "- a", "---", "## Section One", "text", "### Sub A", "more" the outline is (main, "Section One"), (sub, "Sub A") and the cleaned text is the last four lines |
| Index.RoundHalfEvenNearest | build.py:602 | the rounded quotient is within half a unit of the exact one and a tie goes to the even neighbour, as `.1f` rounds |
| Index.DecimalValue | build.py:602 | the decimal digits read back as the number and have no leading zero |
| Index.SizeLabelUnavailable | build.py:602 | the label is "N/A" exactly when the size is not positive |
| Index.SizeLabelMegabytes | build.py:602 | a positive size's label reads back as its size in tenths of a mebibyte, within half a tenth of the exact size |
| Index.SizeLabelExample | build.py:602 | 1,572,864 bytes are labelled "1.5 MB" |
| Index.SizeLabelPlain | build.py:602 | a label holds no markup character |
| Index.SelectAppend | build.py:597-606 | one more result goes to exactly one list, at its end |
| Index.SelectSound | build.py:603-606 | every result in the Cranberry list has the organisation "Elm Lake Cranberry", every result in the Labs list another one |
| Index.SelectComplete | build.py:603-606 | conversely every result lands in the list of its organisation, with all its occurrences: a result is in the Cranberry list exactly when its organisation is "Elm Lake Cranberry", and in the Labs list exactly when it is not |
| Index.SelectOrdered | build.py:597-606 | both lists keep input order |
| Index.SelectPartition | build.py:597-606 | together the two lists are the results (as a multiset) and their lengths add up to the number of results |
| Index.EntriesOfAppend | build.py:598-602 | entries are made one per result, in order |
| Index.RenderCards | build.py:609-622 | the loop returns one card per entry, in order |
| Index.ParseOneCard | build.py:612-621 | a card reads back as its entry, with title and description unescaped |
| Index.CardsRoundTrip | build.py:609-622 | the cards read back as exactly the entries when no link holds a quote and no size label a `<` |
| Index.EntriesSafe | build.py:598-602 | entries made from results whose PDF names hold no quote can be read back from their cards |
| Index.Partition | build.py:597-606 | the loop builds the Labs and Cranberry entry lists as the entries of the two selections |
| Index.BuildIndex | build.py:591-791 | the page is the fixed head and the body template filled with the Labs cards and then the Cranberry cards |

## Left out

- The stylesheet (`get_css`, build.py:12-343) is a fixed text and becomes the parameter `css` of `Document.BuildHtml`.
- The markdown converter (`md_to_html_body`, build.py:345-350) is an external library and becomes the function parameter `mdToHtml`.
- `main` (build.py:525-589) is left out: file reads and writes, directory creation, the package-install fallback, the PDF renderer run with its 120 s timeout, file sizes and console output. Build results reach `Index.BuildIndex` as a parameter.
- The `reports` list (build.py:468-523) is data. `Index.Report` keeps only the four fields `build_index` reads, and `Document.BuildHtml` takes title, subtitle and organisation directly.
- The index page head and its stylesheet (build.py:624-771) are fixed text, passed to `Index.BuildIndex` as `head`. Writing `index.html` (build.py:793-795) is left to the caller, so the method returns the page text.
- Index.SizeLabel: formats the exact quotient size / 2^20 rounded half-to-even, as Python's `.1f` does. The int-to-float conversion that rounds sizes above 2^53 is not modelled.
- Links.RemoveLinks: the regular expression is modelled by a hand-written scan. Its agreement with the pattern is stated for a link at the front (`Links.MatchLinkExact`), not proved against a general regular-expression semantics.
- Html.Unescape: only a proof partner for `html.escape`. The source never unescapes.
- The template texts keep the non-ASCII characters exactly as stored in build.py: the download icon and the dash, middle dot and copyright sign of the index page appear there as UTF-8 bytes read as Windows-1252.
