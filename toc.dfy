/** extract_toc_items (build.py lines 352-366): the outline of a markdown
    document, one entry per `## ` or `### ` heading, in document order. */
module Toc {
  import opened Text
  import opened Links

  /** 'main' for a second-level heading, 'sub' for a third-level one. */
  datatype Kind = Main | Sub

  datatype TocEntry = TocEntry(kind: Kind, title: string)

  const TocHeading: string := "## Table of Contents"

  /** The title kept for a stripped heading line: every leading '#' and the
      surrounding whitespace removed, then links reduced to their labels. */
  function HeadingTitle(t: string): (r: string)
    ensures '[' !in t ==> r == Strip(LStripHash(t))
  {
    var bare := Strip(LStripHash(t));
    NoNewBracket(t);
    RemoveLinks(bare)
  }

  /** Removing '#'s and whitespace brings in no '['. */
  lemma NoNewBracket(t: string)
    ensures '[' in Strip(LStripHash(t)) ==> '[' in t
  {
    var bare := Strip(LStripHash(t));
    if '[' in bare {
      var h := LStripHash(t);
      var lo := StripSpec(h);
      SliceChars(h, lo, lo + |bare|, '[');
      LStripHashSpec(t);
      SliceChars(t, |t| - |h|, |t|, '[');
    }
  }

  /** What one line contributes to the outline (the body of the loop in
      extract_toc_items). */
  function EntryOf(line: string): Option<TocEntry> {
    var t := Strip(line);
    if "## " <= t && !(TocHeading <= t) then Some(TocEntry(Main, HeadingTitle(t)))
    else if "### " <= t then Some(TocEntry(Sub, HeadingTitle(t)))
    else None
  }

  /** A stripped line starting `## ` other than the table-of-contents
      heading gives exactly one 'main' entry, one starting `### ` exactly one
      'sub' entry, anything else nothing; the title is HeadingTitle of the
      stripped line. */
  lemma EntryOfSpec(line: string)
    ensures var r, t := EntryOf(line), Strip(line);
      && ((r.Some? && r.value.kind == Main) <==> "## " <= t && !(TocHeading <= t))
      && ((r.Some? && r.value.kind == Sub) <==> "### " <= t)
      && (r.Some? ==> r.value.title == HeadingTitle(t))
  {
    var t := Strip(line);
    if "## " <= t {
      assert t[2] != '#';
    }
  }

  /** The outline of a list of lines. */
  function TocItems(lines: seq<string>): seq<TocEntry> {
    if lines == [] then [] else LineItems(lines[0]) + TocItems(lines[1..])
  }

  /** What one line adds to the outline: its entry, if it has one. */
  function LineItems(line: string): seq<TocEntry> {
    var e := EntryOf(line);
    if e.Some? then [e.value] else []
  }

  /** extract_toc_items(md_content). */
  method ExtractTocItems(content: string) returns (items: seq<TocEntry>)
    ensures items == TocItems(Split(content))
  {
    var lines := Split(content);
    items := [];
    var i := 0;
    while i < |lines|
      invariant 0 <= i <= |lines|
      invariant items + TocItems(lines[i..]) == TocItems(lines)
    {
      var line := Strip(lines[i]);
      var isMain := "## " <= line && !(TocHeading <= line);
      var isSub := "### " <= line;
      if isMain {
        var title := HeadingTitle(line);
        assert items + [TocEntry(Main, title)] + TocItems(lines[i + 1..]) == TocItems(lines) by {
          MainLineItems(lines[i]);
          ExtractStep(lines, i, items, [TocEntry(Main, title)]);
        }
        items := items + [TocEntry(Main, title)];
      } else if isSub {
        var title := HeadingTitle(line);
        assert items + [TocEntry(Sub, title)] + TocItems(lines[i + 1..]) == TocItems(lines) by {
          SubLineItems(lines[i]);
          ExtractStep(lines, i, items, [TocEntry(Sub, title)]);
        }
        items := items + [TocEntry(Sub, title)];
      } else {
        assert items + TocItems(lines[i + 1..]) == TocItems(lines) by {
          OtherLineItems(lines[i]);
          ExtractStep(lines, i, items, []);
          assert items + [] == items;
        }
      }
      i := i + 1;
    }
    assert lines[i..] == [];
  }

  /** One turn of the loop of extract_toc_items keeps its invariant. */
  lemma ExtractStep(lines: seq<string>, i: nat, before: seq<TocEntry>, added: seq<TocEntry>)
    requires i < |lines|
    requires before + TocItems(lines[i..]) == TocItems(lines)
    requires added == LineItems(lines[i])
    ensures (before + added) + TocItems(lines[i + 1..]) == TocItems(lines)
  {
    TocItemsStep(lines, i);
    AppendAssoc(before, added, TocItems(lines[i + 1..]));
  }

  /** A `## ` line other than the table-of-contents heading adds one 'main'
      entry. */
  lemma MainLineItems(raw: string)
    requires "## " <= Strip(raw) && !(TocHeading <= Strip(raw))
    ensures LineItems(raw) == [TocEntry(Main, HeadingTitle(Strip(raw)))]
  {
  }

  /** Otherwise a `### ` line adds one 'sub' entry. */
  lemma SubLineItems(raw: string)
    requires !("## " <= Strip(raw) && !(TocHeading <= Strip(raw))) && "### " <= Strip(raw)
    ensures LineItems(raw) == [TocEntry(Sub, HeadingTitle(Strip(raw)))]
  {
  }

  /** Any other line adds nothing. */
  lemma OtherLineItems(raw: string)
    requires !("## " <= Strip(raw) && !(TocHeading <= Strip(raw))) && !("### " <= Strip(raw))
    ensures LineItems(raw) == []
  {
  }

  lemma TocItemsStep(lines: seq<string>, i: nat)
    requires i < |lines|
    ensures TocItems(lines[i..]) == LineItems(lines[i]) + TocItems(lines[i + 1..])
  {
    assert lines[i..][1..] == lines[i + 1..];
  }

  lemma TocItemsCons(line: string, rest: seq<string>)
    ensures TocItems([line] + rest) == LineItems(line) + TocItems(rest)
  {
    assert ([line] + rest)[1..] == rest;
  }

  /** The outline of a concatenation is the concatenation of the outlines:
      entries come in line order and each line contributes on its own. */
  lemma {:induction false} TocItemsAppend(a: seq<string>, b: seq<string>)
    ensures TocItems(a + b) == TocItems(a) + TocItems(b)
  {
    if a != [] {
      var line := a[0];
      assert a == [line] + a[1..];
      assert a + b == [line] + (a[1..] + b);
      TocItemsCons(line, a[1..] + b);
      TocItemsCons(line, a[1..]);
      TocItemsAppend(a[1..], b);
      AppendAssoc(LineItems(line), TocItems(a[1..]), TocItems(b));
    } else {
      assert a + b == b;
    }
  }

  /** One line gives at most one entry: exactly one for a `## ` heading
      other than the table-of-contents heading or a `### ` heading. */
  lemma TocItemsOfLine(line: string)
    ensures |TocItems([line])| == (if EntryOf(line).Some? then 1 else 0)
    ensures EntryOf(line).Some? ==> TocItems([line]) == [EntryOf(line).value]
  {
    assert [line][1..] == [];
  }

  /** There are never more entries than lines. */
  lemma {:induction false} TocItemsBound(lines: seq<string>)
    ensures |TocItems(lines)| <= |lines|
  {
    if lines != [] {
      TocItemsBound(lines[1..]);
    }
  }

  /** Level-one and level-four headings give no entry. */
  lemma OtherHeadingsIgnored(line: string)
    requires "# " <= Strip(line) || "#### " <= Strip(line)
    ensures EntryOf(line) == None
  {
    var t := Strip(line);
    if "# " <= t {
      assert t[1] == ' ';
    } else {
      assert t[2] == '#' && t[3] == '#';
    }
  }
}
