/** build_html (build.py lines 409-464): the table-of-contents block, the
    markdown clean-up pipeline and the assembled report document. The
    stylesheet (get_css) and the markdown converter (md_to_html_body) are
    parameters: the first is a fixed text, the second an external library. */
module Document {
  import opened Text
  import opened Html
  import opened Toc
  import StripToc
  import StripHeading

  const TocOpen: string := "<div class=\"toc-page\">\n<h2>Table of Contents</h2>\n<ul class=\"toc-list\">\n"
  const TocClose: string := "</ul>\n</div>\n"

  /** The attribute that indents 'sub' entries. */
  function LiClass(kind: Kind): string {
    if kind == Sub then " class=\"toc-sub\"" else ""
  }

  /** One list item (build.py line 426): an `<li>` tag, carrying the 'sub'
      class for sub entries, around the escaped title, then a newline. */
  function TocLi(e: TocEntry): string {
    "<li" + LiClass(e.kind) + ">" + Escape(e.title) + "</li>\n"
  }

  /** The list items of all entries, in entry order. */
  function TocLis(items: seq<TocEntry>): string {
    if items == [] then "" else TocLi(items[0]) + TocLis(items[1..])
  }

  /** The whole table-of-contents block that build_html builds in toc_html. */
  function TocBlock(items: seq<TocEntry>): string {
    TocOpen + TocLis(items) + TocClose
  }

  /** A list item as a template with the escaped title as its one hole. */
  function LiLits(kind: Kind): seq<string> {
    ["<li" + LiClass(kind) + ">", "</li>\n"]
  }

  lemma TocLiIsFilled(e: TocEntry)
    ensures TocLi(e) == Fill(LiLits(e.kind), [Escape(e.title)])
  {
  }

  /** Reads one list item off the front of `s`. */
  function ParseLi(s: string): (r: Option<(TocEntry, string)>)
    ensures r.Some? ==> |r.value.1| < |s|
  {
    match Match(LiLits(Sub), s)
    case Some(m) => Some((TocEntry(Sub, Unescape(m.0[0])), m.1))
    case None =>
      match Match(LiLits(Main), s)
      case Some(m) => Some((TocEntry(Main, Unescape(m.0[0])), m.1))
      case None => None
  }

  /** Reads a run of list items. */
  function ParseLis(s: string): Option<seq<TocEntry>>
    decreases |s|
  {
    if s == [] then Some([])
    else match ParseLi(s)
      case None => None
      case Some((e, rest)) =>
        match ParseLis(rest)
        case None => None
        case Some(es) => Some([e] + es)
  }

  /** Reads a table-of-contents block back into its entries. */
  function ParseTocBlock(s: string): Option<seq<TocEntry>> {
    if TocOpen <= s && |TocOpen| + |TocClose| <= |s| && s[|s| - |TocClose|..] == TocClose
    then ParseLis(s[|TocOpen|..|s| - |TocClose|])
    else None
  }

  /** One item reads back as its entry: the class attribute tells the kind
      and the unescaped text is the title. */
  lemma ParseTocLi(e: TocEntry, tail: string)
    ensures ParseLi(TocLi(e) + tail) == Some((e, tail))
  {
    var s := TocLi(e) + tail;
    MatchLi(e, tail);
    UnescapeEscape(e.title);
    if e.kind == Main {
      MainLiStart(e, tail);
      NotSubLi(s);
    }
  }

  /** A 'main' item opens with the bare `<li>` tag. */
  lemma MainLiStart(e: TocEntry, tail: string)
    requires e.kind == Main
    ensures |TocLi(e) + tail| > 3 && (TocLi(e) + tail)[3] == '>'
  {
  }

  /** Text whose fourth character closes the tag is no 'sub' item. */
  lemma NotSubLi(s: string)
    requires |s| > 3 && s[3] == '>'
    ensures Match(LiLits(Sub), s) == None
  {
    assert LiLits(Sub)[0][3] == ' ';
  }

  /** The item's template reads back its escaped title. */
  lemma MatchLi(e: TocEntry, tail: string)
    ensures Match(LiLits(e.kind), TocLi(e) + tail) == Some(([Escape(e.title)], tail))
  {
    var hole := Escape(e.title);
    TocLiIsFilled(e);
    assert '<' !in hole;
    assert Readable(LiLits(e.kind), [hole]);
    MatchFill(LiLits(e.kind), [hole], tail);
  }

  lemma {:induction false} ParseTocLis(items: seq<TocEntry>)
    ensures ParseLis(TocLis(items)) == Some(items)
  {
    if items != [] {
      ParseTocLis(items[1..]);
      ParseLisStep(items);
    }
  }

  /** The first item, read off the front of the block's items. */
  lemma ParseLisStep(items: seq<TocEntry>)
    requires items != [] && ParseLis(TocLis(items[1..])) == Some(items[1..])
    ensures ParseLis(TocLis(items)) == Some(items)
  {
    var tail := TocLis(items[1..]);
    assert TocLis(items) == TocLi(items[0]) + tail;
    ParseTocLi(items[0], tail);
    ParseLisCons(TocLi(items[0]) + tail, tail, items);
  }

  /** An item read off the front, followed by items read from the rest. */
  lemma ParseLisCons(s: string, rest: string, items: seq<TocEntry>)
    requires items != []
    requires ParseLi(s) == Some((items[0], rest)) && ParseLis(rest) == Some(items[1..])
    ensures ParseLis(s) == Some(items)
  {
    assert [items[0]] + items[1..] == items;
  }

  /** The block holds exactly one item per entry, in entry order, with the
      'sub' class exactly on sub entries and the escaped title as text:
      reading it back gives the entries. */
  lemma TocBlockRoundTrip(items: seq<TocEntry>)
    ensures ParseTocBlock(TocBlock(items)) == Some(items)
  {
    var s := TocBlock(items);
    var lis := TocLis(items);
    assert s == TocOpen + (lis + TocClose);
    assert s[|s| - |TocClose|..] == TocClose;
    assert s[|TocOpen|..|s| - |TocClose|] == lis;
    ParseTocLis(items);
  }

  /** No raw angle bracket from an entry title reaches the block's text:
      between the tags of an item there is only escaped text. */
  lemma TocLiEscapes(e: TocEntry)
    ensures var cls := LiClass(e.kind);
      && TocLi(e) == "<li" + cls + ">" + Escape(e.title) + "</li>\n"
      && (cls == " class=\"toc-sub\"" <==> e.kind == Sub)
      && forall i :: 0 <= i < |Escape(e.title)| ==> Escape(e.title)[i] != '<' && Escape(e.title)[i] != '>'
  {
  }

  /** The clean-up of build_html: the table of contents is stripped first,
      then the title block. */
  function CleanMarkdown(content: string): string {
    StripHeading.StripHeadingText(StripToc.StripTocText(content))
  }

  /** The report template of build_html, around its eight holes: the
      page title, the stylesheet, the cover (logo text, title, subtitle,
      organisation), the table of contents and the converted body. */
  const DocHead: string := "<!DOCTYPE html>\n<html lang=\"en\">\n<head>\n<meta charset=\"UTF-8\">\n<meta name=\"viewport\" content=\"width=device-width, initial-scale=1.0\">\n<title>"
  const DocAfterTitle: string := "</title>\n<style>\n"
  const DocAfterCss: string := "\n</style>\n</head>\n<body>\n\n<!-- Cover Page -->\n<div class=\"cover-page\">\n    <div class=\"cover-logo\">"
  const DocAfterLogo: string := "</div>\n    <h1 class=\"cover-title\">"
  const DocAfterCoverTitle: string := "</h1>\n    <p class=\"cover-subtitle\">"
  const DocAfterSubtitle: string := "</p>\n    <div class=\"cover-divider\"></div>\n    <div class=\"cover-meta\">\n        <strong>Prepared for</strong> "
  const DocAfterOrg: string := "<br>\n        <strong>Date</strong> February 14, 2026<br>\n        <strong>Prepared by</strong> Henry Clawson\n    </div>\n</div>\n\n<!-- Table of Contents -->\n"
  const DocAfterToc: string := "\n\n<!-- Report Content -->\n<div class=\"content\">\n"
  const DocEnd: string := "\n</div>\n\n</body>\n</html>"

  const DocLits: seq<string> :=
    [DocHead, DocAfterTitle, DocAfterCss, DocAfterLogo, DocAfterCoverTitle, DocAfterSubtitle, DocAfterOrg,
     DocAfterToc, DocEnd]

  /** The document for the given metadata, stylesheet, outline and converted
      body. */
  function ReportDocument(title: string, subtitle: string, org: string, css: string,
                          items: seq<TocEntry>, body: string): string
  {
    Fill(DocLits, [Escape(title), css, Escape(org), Escape(title), Escape(subtitle), Escape(org),
                   TocBlock(items), body])
  }

  /** build_html(title, subtitle, org, md_content): the outline comes from the
      original markdown, the body from the cleaned markdown. */
  method BuildHtml(title: string, subtitle: string, org: string, content: string,
                   css: string, mdToHtml: string -> string) returns (doc: string)
    ensures doc == ReportDocument(title, subtitle, org, css, TocItems(Split(content)),
                                  mdToHtml(CleanMarkdown(content)))
  {
    var tocItems := ExtractTocItems(content);
    var clean := StripToc.StripExistingToc(content);
    clean := StripHeading.StripFirstHeading(clean);
    var bodyHtml := mdToHtml(clean);

    var tocHtml := TocOpen;
    var i := 0;
    while i < |tocItems|
      invariant 0 <= i <= |tocItems|
      invariant tocHtml + TocLis(tocItems[i..]) == TocOpen + TocLis(tocItems)
    {
      var kind, item := tocItems[i].kind, tocItems[i].title;
      var cls := if kind == Sub then " class=\"toc-sub\"" else "";
      ghost var before := tocHtml;
      tocHtml := tocHtml + ("<li" + cls + ">" + Escape(item) + "</li>\n");
      TocLisStep(tocItems, i, before, tocHtml);
      i := i + 1;
    }
    TocLisDone(tocItems, tocHtml);
    tocHtml := tocHtml + TocClose;

    doc := Fill(DocLits, [Escape(title), css, Escape(org), Escape(title), Escape(subtitle), Escape(org),
                          tocHtml, bodyHtml]);
  }

  /** One turn of the `<li>` loop keeps its invariant. */
  lemma TocLisStep(items: seq<TocEntry>, i: nat, before: string, after: string)
    requires i < |items|
    requires before + TocLis(items[i..]) == TocOpen + TocLis(items)
    requires after == before + TocLi(items[i])
    ensures after + TocLis(items[i + 1..]) == TocOpen + TocLis(items)
  {
    TocLisUnfold(items, i);
    AppendAssoc(before, TocLi(items[i]), TocLis(items[i + 1..]));
  }

  lemma TocLisUnfold(items: seq<TocEntry>, i: nat)
    requires i < |items|
    ensures TocLis(items[i..]) == TocLi(items[i]) + TocLis(items[i + 1..])
  {
    assert items[i..][1..] == items[i + 1..];
  }

  /** After the loop the items are all there. */
  lemma TocLisDone(items: seq<TocEntry>, acc: string)
    requires acc + TocLis(items[|items|..]) == TocOpen + TocLis(items)
    ensures acc + TocClose == TocBlock(items)
  {
    assert items[|items|..] == [];
    assert acc == TocOpen + TocLis(items);
  }
}
