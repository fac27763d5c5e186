/** strip_existing_toc (build.py lines 368-386): drops a hand-written table
    of contents. The one flag of the source, in_toc, is the state of a
    two-state machine over the lines. */
module StripToc {
  import opened Text
  import Toc

  /** The line opens a table of contents (its strip starts with the
      heading); the source tests this before looking at in_toc. */
  predicate OpensToc(line: string) {
    Toc.TocHeading <= Strip(line)
  }

  /** A `## ` heading, or a `#` line that is not `##`: ends skipping and is
      kept. */
  predicate EndsTocKept(line: string) {
    var t := Strip(line);
    "## " <= t || ("#" <= t && !("##" <= t))
  }

  /** A `---` divider: ends skipping and is dropped. */
  predicate EndsTocDropped(line: string) {
    Strip(line) == "---"
  }

  /** The lines kept from `lines` when the machine starts with in_toc =
      `inToc`. */
  function StripTocFrom(lines: seq<string>, inToc: bool): seq<string> {
    if lines == [] then []
    else
      var line := lines[0];
      if OpensToc(line) then StripTocFrom(lines[1..], true)
      else if inToc then
        if EndsTocKept(line) then [line] + StripTocFrom(lines[1..], false)
        else if EndsTocDropped(line) then StripTocFrom(lines[1..], false)
        else StripTocFrom(lines[1..], true)
      else [line] + StripTocFrom(lines[1..], false)
  }

  /** strip_existing_toc on the whole text. */
  function StripTocText(content: string): string {
    Join(StripTocFrom(Split(content), false))
  }

  /** strip_existing_toc(md_content). */
  method StripExistingToc(content: string) returns (r: string)
    ensures r == StripTocText(content)
  {
    var lines := Split(content);
    var result: seq<string> := [];
    var inToc := false;
    var i := 0;
    while i < |lines|
      invariant 0 <= i <= |lines|
      invariant result + StripTocFrom(lines[i..], inToc) == StripTocFrom(lines, false)
    {
      var line := lines[i];
      ghost var before := result;
      var t := Strip(line);
      var opens := Toc.TocHeading <= t;
      var endsKept := "## " <= t || ("#" <= t && !("##" <= t));
      if opens {
        assert StripTocFrom(lines[i..], inToc) == StripTocFrom(lines[i + 1..], true) by {
          StripTocStep(lines, i, inToc);
        }
        inToc := true;
      } else if inToc {
        if endsKept {
          assert result + StripTocFrom(lines[i..], inToc) == (result + [line]) + StripTocFrom(lines[i + 1..], false) by {
            StripTocStep(lines, i, inToc);
            AppendAssoc(result, [line], StripTocFrom(lines[i + 1..], false));
          }
          inToc := false;
          result := result + [line];
        } else if t == "---" {
          assert StripTocFrom(lines[i..], inToc) == StripTocFrom(lines[i + 1..], false) by {
            StripTocStep(lines, i, inToc);
          }
          inToc := false;
        } else {
          assert StripTocFrom(lines[i..], inToc) == StripTocFrom(lines[i + 1..], true) by {
            StripTocStep(lines, i, inToc);
          }
        }
      } else {
        assert result + StripTocFrom(lines[i..], inToc) == (result + [line]) + StripTocFrom(lines[i + 1..], false) by {
          StripTocStep(lines, i, inToc);
          AppendAssoc(result, [line], StripTocFrom(lines[i + 1..], false));
        }
        result := result + [line];
      }
      i := i + 1;
    }
    assert result == StripTocFrom(lines, false) by {
      assert lines[i..] == [];
      assert StripTocFrom(lines[i..], inToc) == [];
    }
    r := Join(result);
  }

  lemma StripTocStep(lines: seq<string>, i: nat, inToc: bool)
    requires i < |lines|
    ensures var line, rest := lines[i], lines[i + 1..];
      StripTocFrom(lines[i..], inToc) ==
        if OpensToc(line) then StripTocFrom(rest, true)
        else if inToc then
          if EndsTocKept(line) then [line] + StripTocFrom(rest, false)
          else if EndsTocDropped(line) then StripTocFrom(rest, false)
          else StripTocFrom(rest, true)
        else [line] + StripTocFrom(rest, false)
  {
    assert lines[i..][1..] == lines[i + 1..];
  }

  /** The output is the input with lines deleted: order kept, every kept
      line unmodified. */
  lemma {:induction false} StripTocSubseq(lines: seq<string>, inToc: bool)
    ensures IsSubseq(StripTocFrom(lines, inToc), lines)
  {
    if lines != [] {
      var line, rest := lines[0], lines[1..];
      assert lines == [line] + rest;
      StripTocSubseq(rest, true);
      StripTocSubseq(rest, false);
      if OpensToc(line) || (inToc && !EndsTocKept(line)) {
        SubseqDrop(line, StripTocFrom(rest, OpensToc(line) || !EndsTocDropped(line)), rest);
      } else {
        SubseqKeep(line, StripTocFrom(rest, false), rest);
      }
    }
  }

  /** Without a table-of-contents heading nothing is removed. */
  lemma {:induction false} StripTocIdentity(lines: seq<string>)
    requires forall i :: 0 <= i < |lines| ==> !OpensToc(lines[i])
    ensures StripTocFrom(lines, false) == lines
  {
    if lines != [] {
      StripTocIdentity(lines[1..]);
    }
  }

  /** Every table-of-contents heading is removed, whatever the state. */
  lemma {:induction false} StripTocRemovesHeadings(lines: seq<string>, inToc: bool)
    ensures forall i :: 0 <= i < |StripTocFrom(lines, inToc)| ==> !OpensToc(StripTocFrom(lines, inToc)[i])
  {
    if lines != [] {
      StripTocRemovesHeadings(lines[1..], true);
      StripTocRemovesHeadings(lines[1..], false);
    }
  }

  /** Stripping twice is stripping once, on lines. */
  lemma StripTocIdempotent(lines: seq<string>)
    ensures StripTocFrom(StripTocFrom(lines, false), false) == StripTocFrom(lines, false)
  {
    StripTocRemovesHeadings(lines, false);
    StripTocIdentity(StripTocFrom(lines, false));
  }

  /** A kept line is one of the input lines, so it holds no newline. */
  lemma {:induction false} SubseqNoNewline(a: seq<string>, b: seq<string>)
    requires IsSubseq(a, b)
    requires forall i :: 0 <= i < |b| ==> '\n' !in b[i]
    ensures forall i :: 0 <= i < |a| ==> '\n' !in a[i]
    decreases |b|
  {
    if a != [] {
      if a[0] == b[0] && IsSubseq(a[1..], b[1..]) {
        SubseqNoNewline(a[1..], b[1..]);
        assert forall i :: 1 <= i < |a| ==> a[i] == a[1..][i - 1];
      } else {
        SubseqNoNewline(a, b[1..]);
      }
    }
  }

  /** Stripping twice is stripping once, on the text. */
  lemma StripTocTextIdempotent(content: string)
    ensures StripTocText(StripTocText(content)) == StripTocText(content)
  {
    var lines := Split(content);
    var kept := StripTocFrom(lines, false);
    if kept == [] {
      assert Join(kept) == "";
      assert Split("") == [""];
      assert !OpensToc("");
      assert StripTocFrom([""], false) == [""];
    } else {
      StripTocSubseq(lines, false);
      SplitNoNewlines(content);
      SubseqNoNewline(kept, lines);
      SplitJoin(kept);
      StripTocIdempotent(lines);
    }
  }

  /** Lines outside a table of contents and free of its heading pass
      through. */
  lemma {:induction false} StripTocKeepsPrefix(pre: seq<string>, rest: seq<string>)
    requires forall i :: 0 <= i < |pre| ==> !OpensToc(pre[i])
    ensures StripTocFrom(pre + rest, false) == pre + StripTocFrom(rest, false)
  {
    if pre != [] {
      var line := pre[0];
      assert pre + rest == [line] + (pre[1..] + rest);
      StripTocFront(line, pre[1..] + rest, false);
      StripTocKeepsPrefix(pre[1..], rest);
      AppendAssoc([line], pre[1..], StripTocFrom(rest, false));
      assert [line] + pre[1..] == pre;
    } else {
      assert pre + rest == rest;
    }
  }

  /** While skipping, lines that end nothing are dropped (this includes
      `### ` headings). */
  lemma {:induction false} StripTocSkips(body: seq<string>, rest: seq<string>)
    requires forall i :: 0 <= i < |body| ==> !EndsTocKept(body[i]) && !EndsTocDropped(body[i])
    ensures StripTocFrom(body + rest, true) == StripTocFrom(rest, true)
  {
    if body != [] {
      assert body + rest == [body[0]] + (body[1..] + rest);
      StripTocFront(body[0], body[1..] + rest, true);
      StripTocSkips(body[1..], rest);
    } else {
      assert body + rest == rest;
    }
  }

  /** A whole table-of-contents section goes: its heading, the lines under
      it, and a closing divider; a closing `#`/`##` heading stays. */
  lemma TocSectionRemoved(pre: seq<string>, heading: string, body: seq<string>, close: string, post: seq<string>)
    requires forall i :: 0 <= i < |pre| ==> !OpensToc(pre[i])
    requires OpensToc(heading)
    requires forall i :: 0 <= i < |body| ==> !EndsTocKept(body[i]) && !EndsTocDropped(body[i])
    requires !OpensToc(close) && (EndsTocKept(close) || EndsTocDropped(close))
    ensures StripTocFrom(pre + [heading] + body + [close] + post, false)
         == pre + (if EndsTocKept(close) then [close] else []) + StripTocFrom(post, false)
  {
    var tail := [close] + post;
    var section := [heading] + (body + tail);
    assert pre + [heading] + body + [close] + post == pre + section by {
      AppendAssoc(pre + [heading], body, tail);
      AppendAssoc(pre, [heading], body + tail);
    }
    StripTocKeepsPrefix(pre, section);
    var kept := if EndsTocKept(close) then [close] else [];
    assert StripTocFrom(section, false) == kept + StripTocFrom(post, false) by {
      StripTocFront(heading, body + tail, false);
      StripTocSkips(body, tail);
      CloseStep(close, post);
    }
    AppendAssoc(pre, kept, StripTocFrom(post, false));
  }

  /** The closing line of a section, met while skipping. */
  lemma CloseStep(close: string, post: seq<string>)
    requires !OpensToc(close) && (EndsTocKept(close) || EndsTocDropped(close))
    ensures StripTocFrom([close] + post, true) == (if EndsTocKept(close) then [close] else []) + StripTocFrom(post, false)
  {
    StripTocFront(close, post, true);
    if !EndsTocKept(close) {
      assert [] + StripTocFrom(post, false) == StripTocFrom(post, false);
    }
  }

  /** The machine on a line put in front of others. */
  lemma StripTocFront(line: string, rest: seq<string>, inToc: bool)
    ensures StripTocFrom([line] + rest, inToc) ==
      if OpensToc(line) then StripTocFrom(rest, true)
      else if inToc then
        if EndsTocKept(line) then [line] + StripTocFrom(rest, false)
        else if EndsTocDropped(line) then StripTocFrom(rest, false)
        else StripTocFrom(rest, true)
      else [line] + StripTocFrom(rest, false)
  {
    assert ([line] + rest)[1..] == rest;
  }
}
