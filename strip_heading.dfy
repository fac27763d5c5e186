/** strip_first_heading (build.py lines 388-407): drops the document title
    and the subtitle/metadata block under it. The flags found_h1 and
    skip_meta of the source give three phases: before the title, in the
    metadata run, and after it. */
module StripHeading {
  import opened Text

  /** The guard of the source: the strip starts with `# ` and not `## `. */
  predicate IsTitleLine(line: string) {
    var t := Strip(line);
    "# " <= t && !("## " <= t)
  }

  /** Blank, italic (`*…`) or divider (`---`) line after the title. */
  predicate IsMetaLine(line: string) {
    var t := Strip(line);
    t == "" || "*" <= t || t == "---"
  }

  /** The lines kept from `lines` when the machine starts with the given
      flags. */
  function StripHeadingFrom(lines: seq<string>, foundH1: bool, skipMeta: bool): seq<string> {
    if lines == [] then []
    else
      var line := lines[0];
      if !foundH1 && IsTitleLine(line) then StripHeadingFrom(lines[1..], true, true)
      else if skipMeta && IsMetaLine(line) then StripHeadingFrom(lines[1..], foundH1, true)
      else [line] + StripHeadingFrom(lines[1..], foundH1, false)
  }

  /** strip_first_heading on the whole text. */
  function StripHeadingText(content: string): string {
    Join(StripHeadingFrom(Split(content), false, false))
  }

  lemma StripHeadingStep(lines: seq<string>, i: nat, foundH1: bool, skipMeta: bool)
    requires i < |lines|
    ensures var line, rest := lines[i], lines[i + 1..];
      StripHeadingFrom(lines[i..], foundH1, skipMeta) ==
        if !foundH1 && IsTitleLine(line) then StripHeadingFrom(rest, true, true)
        else if skipMeta && IsMetaLine(line) then StripHeadingFrom(rest, foundH1, true)
        else [line] + StripHeadingFrom(rest, foundH1, false)
  {
    assert lines[i..][1..] == lines[i + 1..];
  }

  /** One turn of the strip_first_heading loop keeps its invariant. */
  lemma HeadingStep(lines: seq<string>, i: nat, foundH1: bool, skipMeta: bool,
                    before: seq<string>, after: seq<string>, foundH1': bool, skipMeta': bool)
    requires i < |lines|
    requires before + StripHeadingFrom(lines[i..], foundH1, skipMeta) == StripHeadingFrom(lines, false, false)
    requires var line := lines[i];
      if !foundH1 && IsTitleLine(line) then after == before && foundH1' && skipMeta'
      else if skipMeta && IsMetaLine(line) then after == before && foundH1' == foundH1 && skipMeta'
      else after == before + [line] && foundH1' == foundH1 && !skipMeta'
    ensures after + StripHeadingFrom(lines[i + 1..], foundH1', skipMeta') == StripHeadingFrom(lines, false, false)
  {
    var line := lines[i];
    var later := StripHeadingFrom(lines[i + 1..], foundH1', skipMeta');
    StripHeadingStep(lines, i, foundH1, skipMeta);
    if !foundH1 && IsTitleLine(line) {
    } else if skipMeta && IsMetaLine(line) {
    } else {
      AppendAssoc(before, [line], later);
    }
  }

  /** strip_first_heading(md_content). */
  method StripFirstHeading(content: string) returns (r: string)
    ensures r == StripHeadingText(content)
  {
    var lines := Split(content);
    var result: seq<string> := [];
    var foundH1, skipMeta := false, false;
    var i := 0;
    while i < |lines|
      invariant 0 <= i <= |lines|
      invariant result + StripHeadingFrom(lines[i..], foundH1, skipMeta) == StripHeadingFrom(lines, false, false)
    {
      var line := lines[i];
      ghost var before, wasFound, wasSkipping := result, foundH1, skipMeta;
      var stripped := Strip(line);
      var isTitle := "# " <= stripped && !("## " <= stripped);
      var isMeta := stripped == "" || "*" <= stripped || stripped == "---";
      if !foundH1 && isTitle {
        foundH1 := true;
        skipMeta := true;
      } else {
        var skip := false;
        if skipMeta {
          if isMeta {
            skip := true;
          } else {
            skipMeta := false;
          }
        }
        if !skip {
          result := result + [line];
        }
      }
      HeadingStep(lines, i, wasFound, wasSkipping, before, result, foundH1, skipMeta);
      i := i + 1;
    }
    assert lines[i..] == [];
    assert StripHeadingFrom(lines[i..], foundH1, skipMeta) == [];
    assert result == StripHeadingFrom(lines, false, false);
    r := Join(result);
  }

  /** Index of the first title line at or after `from`, |lines| if none. */
  function FirstTitleFrom(lines: seq<string>, from: nat): (h: nat)
    requires from <= |lines|
    ensures from <= h <= |lines|
    decreases |lines| - from
  {
    if from == |lines| then from
    else if IsTitleLine(lines[from]) then from
    else FirstTitleFrom(lines, from + 1)
  }

  /** The search stops at a title line, and no title line comes before
      it. */
  lemma {:induction false} FirstTitleFirst(lines: seq<string>, from: nat)
    requires from <= |lines|
    ensures var h := FirstTitleFrom(lines, from);
      && (h < |lines| ==> IsTitleLine(lines[h]))
      && forall i :: from <= i < h ==> !IsTitleLine(lines[i])
    decreases |lines| - from
  {
    if from < |lines| && !IsTitleLine(lines[from]) {
      FirstTitleFirst(lines, from + 1);
    }
  }

  /** End of the run of metadata lines that starts at `from`. */
  function MetaRunEnd(lines: seq<string>, from: nat): (m: nat)
    requires from <= |lines|
    ensures from <= m <= |lines|
    decreases |lines| - from
  {
    if from == |lines| then from
    else if IsMetaLine(lines[from]) then MetaRunEnd(lines, from + 1)
    else from
  }

  /** Every line of the run is a metadata line, and the line after it is
      not. */
  lemma {:induction false} MetaRunAllMeta(lines: seq<string>, from: nat)
    requires from <= |lines|
    ensures var m := MetaRunEnd(lines, from);
      && (m < |lines| ==> !IsMetaLine(lines[m]))
      && forall i :: from <= i < m ==> IsMetaLine(lines[i])
    decreases |lines| - from
  {
    if from < |lines| && IsMetaLine(lines[from]) {
      MetaRunAllMeta(lines, from + 1);
    }
  }

  /** A run of metadata lines followed by another line ends at that line. */
  lemma {:induction false} MetaRunEndsAt(lines: seq<string>, from: nat, to: nat)
    requires from <= to < |lines| && !IsMetaLine(lines[to])
    requires forall i :: from <= i < to ==> IsMetaLine(lines[i])
    ensures MetaRunEnd(lines, from) == to
    decreases |lines| - from
  {
    if from < to {
      MetaRunEndsAt(lines, from + 1, to);
    }
  }

  /** After the metadata run every line is kept. */
  lemma {:induction false} KeepsAfterMeta(lines: seq<string>, from: nat)
    requires from <= |lines|
    ensures StripHeadingFrom(lines[from..], true, false) == lines[from..]
    decreases |lines| - from
  {
    if from < |lines| {
      StripHeadingStep(lines, from, true, false);
      KeepsAfterMeta(lines, from + 1);
      assert lines[from..] == [lines[from]] + lines[from + 1..];
    }
  }

  /** The metadata run is dropped and the rest is kept. */
  lemma {:induction false} DropsMetaRun(lines: seq<string>, from: nat)
    requires from <= |lines|
    ensures StripHeadingFrom(lines[from..], true, true) == lines[MetaRunEnd(lines, from)..]
    decreases |lines| - from
  {
    if from < |lines| {
      StripHeadingStep(lines, from, true, true);
      if IsMetaLine(lines[from]) {
        DropsMetaRun(lines, from + 1);
      } else {
        KeepsAfterMeta(lines, from + 1);
        assert lines[from..] == [lines[from]] + lines[from + 1..];
      }
    }
  }

  /** Reference description of the pass: with h the first title line and m
      the end of the metadata run after it, the lines kept from position
      `from` on are lines[from..h] + lines[m..]; with no title line they are
      all of lines[from..]. */
  ghost function KeptLines(lines: seq<string>, from: nat): seq<string>
    requires from <= |lines|
  {
    var h := FirstTitleFrom(lines, from);
    if h == |lines| then lines[from..] else lines[from..h] + lines[MetaRunEnd(lines, h + 1)..]
  }

  /** The machine keeps exactly the lines of the reference description. */
  lemma StripHeadingSpec(lines: seq<string>, from: nat)
    requires from <= |lines|
    ensures StripHeadingFrom(lines[from..], false, false) == KeptLines(lines, from)
  {
    var h := FirstTitleFrom(lines, from);
    FirstTitleFirst(lines, from);
    KeepsBeforeTitle(lines, from, h);
    if h == |lines| {
      assert lines[h..] == [];
      assert lines[from..h] + [] == lines[from..];
    } else {
      TitleHere(lines, h);
    }
  }

  /** Up to the first title line every line is kept. */
  lemma {:induction false} KeepsBeforeTitle(lines: seq<string>, from: nat, h: nat)
    requires from <= h <= |lines|
    requires forall i :: from <= i < h ==> !IsTitleLine(lines[i])
    ensures StripHeadingFrom(lines[from..], false, false) == lines[from..h] + StripHeadingFrom(lines[h..], false, false)
    decreases h - from
  {
    if from < h {
      NonTitleKept(lines, from);
      KeepsBeforeTitle(lines, from + 1, h);
      SliceCons(lines, from, h);
      AppendAssoc([lines[from]], lines[from + 1..h], StripHeadingFrom(lines[h..], false, false));
    } else {
      assert lines[from..h] == [];
    }
  }

  /** At a title line the title and its metadata run go. */
  lemma TitleHere(lines: seq<string>, from: nat)
    requires from < |lines| && IsTitleLine(lines[from])
    ensures StripHeadingFrom(lines[from..], false, false) == lines[MetaRunEnd(lines, from + 1)..]
  {
    StripHeadingStep(lines, from, false, false);
    DropsMetaRun(lines, from + 1);
  }

  /** Before the title a line that is no title line is kept. */
  lemma NonTitleKept(lines: seq<string>, from: nat)
    requires from < |lines| && !IsTitleLine(lines[from])
    ensures StripHeadingFrom(lines[from..], false, false) ==
      [lines[from]] + StripHeadingFrom(lines[from + 1..], false, false)
  {
    assert lines[from..][1..] == lines[from + 1..];
  }

  lemma SliceCons(lines: seq<string>, from: nat, to: nat)
    requires from < to <= |lines|
    ensures lines[from..to] == [lines[from]] + lines[from + 1..to]
  {
  }

  /** The whole-document form of StripHeadingSpec. */
  lemma StripFirstHeadingDrops(lines: seq<string>)
    ensures var h := FirstTitleFrom(lines, 0);
      StripHeadingFrom(lines, false, false) ==
        if h == |lines| then lines else lines[..h] + lines[MetaRunEnd(lines, h + 1)..]
  {
    StripHeadingSpec(lines, 0);
    assert lines[0..] == lines;
  }

  /** With no title line the pass is the identity. */
  lemma StripHeadingIdentity(lines: seq<string>)
    requires forall i :: 0 <= i < |lines| ==> !IsTitleLine(lines[i])
    ensures StripHeadingFrom(lines, false, false) == lines
  {
    StripFirstHeadingDrops(lines);
    FirstTitleFirst(lines, 0);
  }
}
