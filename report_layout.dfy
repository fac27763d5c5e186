/** The preprocessing of build_html on a report with the layout that the
    docstring of strip_first_heading (build.py line 389) describes: a `# `
    title followed by subtitle and metadata lines, here also a hand-written
    table of contents closed by a `---` divider, then the body.
    Also where that preprocessing falls short of a round trip: cleaning is
    not idempotent, and `### ` lines inside a hand-written table of contents
    reach the generated outline although the cleaned text no longer has
    them. */
module ReportLayout {
  import opened Text
  import opened Toc
  import opened StripToc
  import opened StripHeading
  import opened Document

  predicate NoNewlines(lines: seq<string>) {
    forall i :: 0 <= i < |lines| ==> '\n' !in lines[i]
  }

  lemma NoNewlinesAppend(a: seq<string>, b: seq<string>)
    requires NoNewlines(a) && NoNewlines(b)
    ensures NoNewlines(a + b)
  {
    assert forall i :: |a| <= i < |a + b| ==> (a + b)[i] == b[i - |a|];
  }

  /** A title line opens no table of contents, is no metadata line and
      gives no outline entry. */
  lemma TitleLineFacts(line: string)
    requires IsTitleLine(line)
    ensures !OpensToc(line) && !IsMetaLine(line) && EntryOf(line) == None
  {
    var t := Strip(line);
    assert t[0] == '#' && t[1] == ' ';
    OtherHeadingsIgnored(line);
  }

  /** A metadata line opens no table of contents and gives no outline
      entry. */
  lemma MetaLineFacts(line: string)
    requires IsMetaLine(line)
    ensures !OpensToc(line) && EntryOf(line) == None
  {
    var t := Strip(line);
    if t != "" {
      assert t[0] == '*' || t[0] == '-';
    }
  }

  /** The table-of-contents heading gives no outline entry. */
  lemma HeadingFacts(line: string)
    requires OpensToc(line)
    ensures EntryOf(line) == None
  {
    var t := Strip(line);
    assert t[2] == ' ';
    EntryOfSpec(line);
  }

  /** A closing divider opens no table of contents, is not kept and gives
      no outline entry. */
  lemma CloseFacts(line: string)
    requires EndsTocDropped(line)
    ensures !OpensToc(line) && !EndsTocKept(line) && EntryOf(line) == None
  {
    var t := Strip(line);
    assert t == "---";
    assert t[0] == '-';
  }

  /** Metadata lines open no table of contents and give no outline
      entry. */
  lemma {:induction false} MetaFacts(meta: seq<string>)
    requires forall i :: 0 <= i < |meta| ==> IsMetaLine(meta[i])
    ensures forall i :: 0 <= i < |meta| ==> !OpensToc(meta[i])
    ensures TocItems(meta) == []
  {
    forall i | 0 <= i < |meta|
      ensures !OpensToc(meta[i])
    {
      MetaLineFacts(meta[i]);
    }
    if meta != [] {
      MetaLineFacts(meta[0]);
      MetaFacts(meta[1..]);
    }
  }

  /** The front matter, a title followed by metadata lines, opens no table
      of contents and gives no outline entry. */
  lemma FrontFacts(title: string, meta: seq<string>)
    requires IsTitleLine(title)
    requires forall i :: 0 <= i < |meta| ==> IsMetaLine(meta[i])
    ensures forall i :: 0 <= i < |[title] + meta| ==> !OpensToc(([title] + meta)[i])
    ensures TocItems([title] + meta) == []
  {
    TitleLineFacts(title);
    MetaFacts(meta);
    var front := [title] + meta;
    forall i | 0 <= i < |front|
      ensures !OpensToc(front[i])
    {
      if i > 0 {
        assert front[i] == meta[i - 1];
      }
    }
    TocItemsCons(title, meta);
    assert LineItems(title) == [];
  }

  /** strip_existing_toc on such a report removes the table of contents and
      its closing divider. */
  lemma ReportStripToc(front: seq<string>, heading: string, listed: seq<string>, close: string, body: seq<string>)
    requires forall i :: 0 <= i < |front| ==> !OpensToc(front[i])
    requires OpensToc(heading)
    requires forall i :: 0 <= i < |listed| ==> !EndsTocKept(listed[i]) && !EndsTocDropped(listed[i])
    requires EndsTocDropped(close)
    requires forall i :: 0 <= i < |body| ==> !OpensToc(body[i])
    ensures StripTocFrom(front + [heading] + listed + [close] + body, false) == front + body
  {
    CloseFacts(close);
    TocSectionRemoved(front, heading, listed, close, body);
    assert front + [] == front;
    StripTocIdentity(body);
  }

  /** strip_first_heading on what is left removes the title and the
      metadata run. */
  lemma ReportStripHeading(title: string, meta: seq<string>, body: seq<string>)
    requires IsTitleLine(title)
    requires forall i :: 0 <= i < |meta| ==> IsMetaLine(meta[i])
    requires |body| > 0 && !IsMetaLine(body[0])
    ensures StripHeadingFrom([title] + meta + body, false, false) == body
  {
    var front := [title] + meta;
    var kept := front + body;
    assert FirstTitleFrom(kept, 0) == 0;
    assert forall i :: 1 <= i < |front| ==> kept[i] == meta[i - 1];
    assert kept[|front|] == body[0];
    MetaRunEndsAt(kept, 1, |front|);
    StripFirstHeadingDrops(kept);
    assert kept[|front|..] == body;
  }

  /** The outline of such a report. */
  lemma ReportOutline(title: string, meta: seq<string>, heading: string, listed: seq<string>,
                      close: string, body: seq<string>)
    requires IsTitleLine(title)
    requires forall i :: 0 <= i < |meta| ==> IsMetaLine(meta[i])
    requires OpensToc(heading)
    requires EndsTocDropped(close)
    ensures TocItems([title] + meta + [heading] + listed + [close] + body) == TocItems(listed) + TocItems(body)
  {
    var front := [title] + meta;
    var p1 := front + [heading];
    var p2 := p1 + listed;
    var p3 := p2 + [close];
    assert TocItems(p1) == [] by {
      FrontFacts(title, meta);
      HeadingFacts(heading);
      TocItemsOfLine(heading);
      TocItemsAppend(front, [heading]);
    }
    assert TocItems(p2) == TocItems(listed) by {
      TocItemsAppend(p1, listed);
      assert [] + TocItems(listed) == TocItems(listed);
    }
    assert TocItems(p3) == TocItems(listed) by {
      CloseFacts(close);
      TocItemsOfLine(close);
      TocItemsAppend(p2, [close]);
      assert TocItems(listed) + [] == TocItems(listed);
    }
    TocItemsAppend(p3, body);
  }

  /** On a report with the usual layout the clean-up leaves exactly the body,
      while the outline is taken from the whole text: it holds the entries of
      the body and those of the lines listed inside the hand-written table of
      contents (the `### ` lines among them; a `## ` line would have ended
      that table). */
  lemma ReportCleaned(title: string, meta: seq<string>, heading: string, listed: seq<string>,
                      close: string, body: seq<string>)
    requires IsTitleLine(title)
    requires forall i :: 0 <= i < |meta| ==> IsMetaLine(meta[i])
    requires OpensToc(heading)
    requires forall i :: 0 <= i < |listed| ==> !EndsTocKept(listed[i]) && !EndsTocDropped(listed[i])
    requires EndsTocDropped(close)
    requires |body| > 0 && !IsMetaLine(body[0])
    requires forall i :: 0 <= i < |body| ==> !OpensToc(body[i])
    requires '\n' !in title && '\n' !in heading && '\n' !in close
    requires NoNewlines(meta) && NoNewlines(listed) && NoNewlines(body)
    ensures var content := Join([title] + meta + [heading] + listed + [close] + body);
      && CleanMarkdown(content) == Join(body)
      && TocItems(Split(content)) == TocItems(listed) + TocItems(body)
      && TocItems(Split(CleanMarkdown(content))) == TocItems(body)
  {
    var front := [title] + meta;
    var lines := front + [heading] + listed + [close] + body;
    NoNewlinesAppend([title], meta);
    NoNewlinesAppend(front, [heading]);
    NoNewlinesAppend(front + [heading], listed);
    NoNewlinesAppend(front + [heading] + listed, [close]);
    NoNewlinesAppend(front + [heading] + listed + [close], body);
    NoNewlinesAppend(front, body);
    SplitJoin(lines);
    FrontFacts(title, meta);
    ReportStripToc(front, heading, listed, close, body);
    SplitJoin(front + body);
    ReportStripHeading(title, meta, body);
    SplitJoin(body);
    ReportOutline(title, meta, heading, listed, close, body);
  }

  /** Two title lines: the first goes, the second stays as an ordinary
      line. */
  lemma CleanTwoTitles(first: string, second: string)
    requires IsTitleLine(first) && IsTitleLine(second)
    requires '\n' !in first && '\n' !in second
    ensures CleanMarkdown(first + "\n" + second) == second
  {
    var content := first + "\n" + second;
    TwoLines(first, second);
    TitleLineFacts(first);
    TitleLineFacts(second);
    assert StripTocText(content) == content by {
      StripTocIdentity([first, second]);
    }
    assert StripHeadingFrom([first, second], false, false) == [second] by {
      assert [first, second][1..] == [second];
      assert [second][1..] == [];
      assert StripHeadingFrom([second], true, true) == [second];
    }
  }

  /** Two newline-free lines joined by a newline split back into them. */
  lemma TwoLines(first: string, second: string)
    requires '\n' !in first && '\n' !in second
    ensures Split(first + "\n" + second) == [first, second]
    ensures Join([first, second]) == first + "\n" + second
  {
    var both := [first, second];
    assert both[1..] == [second];
    assert Join(both) == first + "\n" + second;
    SplitJoin(both);
  }

  /** A lone title line cleans to nothing. */
  lemma CleanTitleOnly(title: string)
    requires IsTitleLine(title) && '\n' !in title
    ensures CleanMarkdown(title) == ""
  {
    TitleLineFacts(title);
    SplitJoin([title]);
    StripTocIdentity([title]);
    StripFirstHeadingDrops([title]);
  }

  /** Cleaning twice is not cleaning once: a second `# ` line survives the
      first pass as an ordinary line and is then taken as the title. */
  lemma CleanNotIdempotent(first: string, second: string)
    requires IsTitleLine(first) && IsTitleLine(second)
    requires '\n' !in first && '\n' !in second
    ensures CleanMarkdown(CleanMarkdown(first + "\n" + second)) == ""
    ensures CleanMarkdown(first + "\n" + second) != ""
  {
    CleanTwoTitles(first, second);
    CleanTitleOnly(second);
    assert Strip(second) != "";
  }

  /** The worked example: a title, then a subtitle and a divider
      (ExampleMeta), a hand-written table of contents listing ExampleListed
      and closed by a divider, then a section with a subsection
      (ExampleBody). Its text is the `\n`-join of these lines. */
  const ExampleMeta: seq<string> := ["*sub*", "---"]
  const ExampleListed: seq<string> := ["- a"]
  const ExampleBody: seq<string> := ["## Section One", "text", "### Sub A", "more"]

  /** On the worked example the clean-up leaves exactly the section and its
      subsection, and the outline holds their two headings. */
  lemma EndToEndExample()
    ensures var content := Join(["# T"] + ExampleMeta + ["## Table of Contents"] + ExampleListed + ["---"] + ExampleBody);
      && CleanMarkdown(content) == Join(ExampleBody)
      && TocItems(Split(content)) == [TocEntry(Main, "Section One"), TocEntry(Sub, "Sub A")]
  {
    TitleExample();
    DividerExample();
    ExampleMetaFacts();
    ExampleListedFacts();
    ExampleBodyStart();
    ExampleBodyOpensNone();
    ExampleBodyNoNewlines();
    ExampleOutline();
    ReportCleaned("# T", ExampleMeta, "## Table of Contents", ExampleListed, "---", ExampleBody);
  }

  lemma ExampleMetaFacts()
    ensures forall i :: 0 <= i < |ExampleMeta| ==> IsMetaLine(ExampleMeta[i])
    ensures NoNewlines(ExampleMeta)
  {
    SubtitleExample();
    DividerExample();
  }

  lemma ExampleListedFacts()
    ensures forall i :: 0 <= i < |ExampleListed| ==> !EndsTocKept(ExampleListed[i]) && !EndsTocDropped(ExampleListed[i])
    ensures NoNewlines(ExampleListed)
    ensures TocItems(ExampleListed) == []
  {
    ListedExample();
    TocItemsOfLine("- a");
  }

  lemma TitleExample()
    ensures IsTitleLine("# T") && OpensToc("## Table of Contents")
  {
    StripUnpadded("# T");
    StripUnpadded("## Table of Contents");
  }

  lemma DividerExample()
    ensures IsMetaLine("---") && EndsTocDropped("---")
  {
    StripUnpadded("---");
  }

  lemma SubtitleExample()
    ensures IsMetaLine("*sub*")
  {
    StripUnpadded("*sub*");
  }

  lemma ListedExample()
    ensures !EndsTocKept("- a") && !EndsTocDropped("- a") && EntryOf("- a") == None
  {
    StripUnpadded("- a");
  }

  lemma ExampleBodyStart()
    ensures !IsMetaLine(ExampleBody[0])
  {
    StripUnpadded("## Section One");
  }

  lemma ExampleBodyOpensNone()
    ensures forall i :: 0 <= i < |ExampleBody| ==> !OpensToc(ExampleBody[i])
  {
    PlainLine("## Section One");
    PlainLine("text");
    PlainLine("### Sub A");
    PlainLine("more");
  }

  lemma ExampleBodyNoNewlines()
    ensures NoNewlines(ExampleBody)
  {
  }

  /** A line with no whitespace at its ends that does not start with the
      table-of-contents heading opens no table of contents. */
  lemma PlainLine(line: string)
    requires line != [] && !IsSpace(line[0]) && !IsSpace(line[|line| - 1])
    requires !(TocHeading <= line)
    ensures !OpensToc(line)
  {
    StripUnpadded(line);
  }

  lemma ExampleOutline()
    ensures TocItems(ExampleBody) == [TocEntry(Main, "Section One"), TocEntry(Sub, "Sub A")]
  {
    SectionEntry();
    SubsectionEntry();
    TextEntries();
    OutlineOfFour("## Section One", "text", "### Sub A", "more");
  }

  lemma SectionEntry()
    ensures EntryOf("## Section One") == Some(TocEntry(Main, "Section One"))
  {
    MainHeadingEntry("## Section One", "Section One");
  }

  lemma SubsectionEntry()
    ensures EntryOf("### Sub A") == Some(TocEntry(Sub, "Sub A"))
  {
    SubHeadingEntry("### Sub A", "Sub A");
  }

  lemma TextEntries()
    ensures EntryOf("text") == None && EntryOf("more") == None
  {
    StripUnpadded("text");
    StripUnpadded("more");
  }

  /** The outline of four lines, of which the first and the third are
      headings. */
  lemma OutlineOfFour(a: string, b: string, c: string, d: string)
    requires EntryOf(a).Some? && EntryOf(b).None? && EntryOf(c).Some? && EntryOf(d).None?
    ensures TocItems([a, b, c, d]) == [EntryOf(a).value, EntryOf(c).value]
  {
    assert [a, b, c, d] == [a] + ([b] + ([c] + [d]));
    TocItemsCons(a, [b] + ([c] + [d]));
    TocItemsCons(b, [c] + [d]);
    TocItemsCons(c, [d]);
    TocItemsOfLine(d);
  }

  /** A `## ` heading whose text is plain gives a 'main' entry with that
      text. */
  lemma MainHeadingEntry(line: string, title: string)
    requires line == "## " + title
    requires title != [] && !IsSpace(title[0]) && !IsSpace(title[|title| - 1])
    requires title[0] != '#' && '[' !in title && !("Table of Contents" <= title)
    ensures EntryOf(line) == Some(TocEntry(Main, title))
  {
    assert Strip(line) == line by {
      StripUnpadded(line);
    }
    assert "## " <= line by {
      assert line[..3] == "## ";
    }
    TocHeadingPrefix(line, title);
    assert HeadingTitle(line) == title by {
      assert '[' !in line;
      assert line[0] == '#' && line[1] == '#' && line[2..] == " " + title;
      LStripHashAfter(line, 2, title);
      StripAfterSpace(title);
    }
    EntryOfSpec(line);
  }

  /** A `### ` heading whose text is plain gives a 'sub' entry with that
      text. */
  lemma SubHeadingEntry(line: string, title: string)
    requires line == "### " + title
    requires title != [] && !IsSpace(title[0]) && !IsSpace(title[|title| - 1])
    requires title[0] != '#' && '[' !in title
    ensures EntryOf(line) == Some(TocEntry(Sub, title))
  {
    assert Strip(line) == line by {
      StripUnpadded(line);
    }
    assert "### " <= line && !("## " <= line) by {
      assert line[..4] == "### ";
      assert line[2] == '#';
    }
    assert HeadingTitle(line) == title by {
      assert '[' !in line;
      assert line[0] == '#' && line[1] == '#' && line[2] == '#' && line[3..] == " " + title;
      LStripHashAfter(line, 3, title);
      StripAfterSpace(title);
    }
    EntryOfSpec(line);
  }

  /** A `## ` line that starts with the table-of-contents heading has a
      text that starts with "Table of Contents". */
  lemma TocHeadingPrefix(line: string, title: string)
    requires line == "## " + title
    ensures TocHeading <= line ==> "Table of Contents" <= title
  {
    if TocHeading <= line {
      assert TocHeading[3..] == "Table of Contents";
      assert forall i :: 3 <= i < |TocHeading| ==> title[i - 3] == line[i];
    }
  }

  /** `n` '#'s, a blank and a text: lstrip('#') leaves the blank and the
      text. */
  lemma {:induction false} LStripHashAfter(line: string, n: nat, title: string)
    requires |line| == n + 1 + |title| && line[n..] == " " + title
    requires forall i :: 0 <= i < n ==> line[i] == '#'
    ensures LStripHash(line) == " " + title
    decreases n
  {
    if n > 0 {
      assert line[1..][n - 1..] == line[n..];
      LStripHashAfter(line[1..], n - 1, title);
    } else {
      assert line == " " + title;
    }
  }

  /** One blank in front of text with no whitespace at its ends is what
      strip() removes. */
  lemma StripAfterSpace(title: string)
    requires title != [] && !IsSpace(title[0]) && !IsSpace(title[|title| - 1])
    ensures Strip(" " + title) == title
  {
    assert (" " + title)[1..] == title;
    assert TrimLeft(" " + title) == TrimLeft(title);
    StripUnpadded(title);
  }
}
