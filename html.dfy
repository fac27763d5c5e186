/** Python's html.escape (quote=True) as a hand-written five-character
    substitution, its inverse on escaped text, and fixed text templates with
    holes: Fill puts values into the holes, Match reads them back. */
module Html {
  import opened Text

  /** html.escape on one character. */
  function EscapeChar(c: char): string {
    if c == '&' then "&amp;"
    else if c == '<' then "&lt;"
    else if c == '>' then "&gt;"
    else if c == '"' then "&quot;"
    else if c == '\'' then "&#x27;"
    else [c]
  }

  /** The characters html.escape rewrites. */
  predicate IsMarkup(c: char) {
    c == '&' || c == '<' || c == '>' || c == '"' || c == '\''
  }

  /** html.escape(s): no raw angle bracket or quote survives, and text
      without markup characters passes through unchanged. */
  function Escape(s: string): (r: string)
    ensures forall i :: 0 <= i < |r| ==> r[i] != '<' && r[i] != '>' && r[i] != '"' && r[i] != '\''
    ensures |r| >= |s|
    ensures (forall i :: 0 <= i < |s| ==> !IsMarkup(s[i])) ==> r == s
  {
    if s == [] then []
    else
      var rest := Escape(s[1..]);
      assert forall i :: 1 <= i < |s| ==> s[1..][i - 1] == s[i];
      EscapeCharSafe(s[0]);
      EscapeChar(s[0]) + rest
  }

  /** One escaped character: at least one character, no raw angle bracket
      or quote, and the character itself when it is no markup. */
  lemma EscapeCharSafe(c: char)
    ensures var e := EscapeChar(c);
      && |e| >= 1
      && (forall i :: 0 <= i < |e| ==> e[i] != '<' && e[i] != '>' && e[i] != '"' && e[i] != '\'')
      && (!IsMarkup(c) ==> e == [c])
  {
  }

  /** Reads the five entities that Escape writes back as characters. */
  function Unescape(s: string): string
    decreases |s|
  {
    if s == [] then []
    else if "&amp;" <= s then "&" + Unescape(s[5..])
    else if "&lt;" <= s then "<" + Unescape(s[4..])
    else if "&gt;" <= s then ">" + Unescape(s[4..])
    else if "&quot;" <= s then "\"" + Unescape(s[6..])
    else if "&#x27;" <= s then "'" + Unescape(s[6..])
    else [s[0]] + Unescape(s[1..])
  }

  /** Escaping loses nothing: the original text can be read back. */
  lemma {:induction false} UnescapeEscape(s: string)
    ensures Unescape(Escape(s)) == s
  {
    if s != [] {
      assert Escape(s) == EscapeChar(s[0]) + Escape(s[1..]);
      UnescapeEscapeChar(s[0], Escape(s[1..]));
      UnescapeEscape(s[1..]);
      assert s == [s[0]] + s[1..];
    }
  }

  lemma UnescapeEscapeChar(c: char, rest: string)
    ensures Unescape(EscapeChar(c) + rest) == [c] + Unescape(rest)
  {
    if c == '&' {
      UnescapeAmp(rest);
    } else if c == '<' {
      UnescapeLt(rest);
    } else if c == '>' {
      UnescapeGt(rest);
    } else if c == '"' {
      UnescapeQuot(rest);
    } else if c == '\'' {
      UnescapeApos(rest);
    } else {
      UnescapePlain(c, rest);
    }
  }

  lemma UnescapeAmp(rest: string)
    ensures Unescape("&amp;" + rest) == "&" + Unescape(rest)
  {
    var t := "&amp;" + rest;
    assert "&amp;" <= t && t[5..] == rest;
  }

  lemma UnescapeLt(rest: string)
    ensures Unescape("&lt;" + rest) == "<" + Unescape(rest)
  {
    var t := "&lt;" + rest;
    assert t[1] == 'l';
    assert "&lt;" <= t && t[4..] == rest;
  }

  lemma UnescapeGt(rest: string)
    ensures Unescape("&gt;" + rest) == ">" + Unescape(rest)
  {
    var t := "&gt;" + rest;
    assert t[1] == 'g';
    assert "&gt;" <= t && t[4..] == rest;
  }

  lemma UnescapeQuot(rest: string)
    ensures Unescape("&quot;" + rest) == "\"" + Unescape(rest)
  {
    var t := "&quot;" + rest;
    assert t[1] == 'q';
    assert "&quot;" <= t && t[6..] == rest;
  }

  lemma UnescapeApos(rest: string)
    ensures Unescape("&#x27;" + rest) == "'" + Unescape(rest)
  {
    var t := "&#x27;" + rest;
    assert t[1] == '#';
    assert "&#x27;" <= t && t[6..] == rest;
  }

  lemma UnescapePlain(c: char, rest: string)
    requires c != '&'
    ensures Unescape([c] + rest) == [c] + Unescape(rest)
  {
    var t := [c] + rest;
    assert t[0] == c;
    assert t[1..] == rest;
  }

  /** A template of fixed texts lits[0], …, lits[n] around n holes. */
  function Fill(lits: seq<string>, holes: seq<string>): (r: string)
    requires |lits| == |holes| + 1
    ensures lits[0] <= r
  {
    if |holes| == 0 then lits[0]
    else lits[0] + holes[0] + Fill(lits[1..], holes[1..])
  }

  /** Reads a filled template off the front of `s`: each hole ends at the
      first occurrence of the first character of the text that follows it.
      Gives the holes and what is left after the last fixed text. */
  function Match(lits: seq<string>, s: string): (m: Option<(seq<string>, string)>)
    ensures m.Some? ==> |lits| > 0 && |m.value.0| + 1 == |lits|
    ensures m.Some? ==> |m.value.1| + |lits[0]| <= |s| && m.value.1 == s[|s| - |m.value.1|..]
    decreases |lits|
  {
    if |lits| == 0 || !(lits[0] <= s) then None
    else
      var rest := s[|lits[0]|..];
      if |lits| == 1 then Some(([], rest))
      else if |lits[1]| == 0 then None
      else
        var k := IndexOf(rest, lits[1][0]);
        match Match(lits[1..], rest[k..])
        case None => None
        case Some(m) => Some(([rest[..k]] + m.0, m.1))
  }

  /** The holes can be read back as long as no hole holds the character
      that starts the fixed text after it. */
  ghost predicate Readable(lits: seq<string>, holes: seq<string>)
    requires |lits| == |holes| + 1
  {
    |holes| == 0 || (|lits[1]| > 0 && lits[1][0] !in holes[0] && Readable(lits[1..], holes[1..]))
  }

  /** The search for the fixed text after a hole stops right after the
      hole. */
  lemma IndexOfPastHole(hole: string, lit: string, after: string)
    requires |lit| > 0 && lit[0] !in hole && lit <= after
    ensures IndexOf(hole + after, lit[0]) == |hole|
  {
    var s := hole + after;
    var k := IndexOf(s, lit[0]);
    assert s[|hole|] == lit[0];
  }

  lemma {:induction false} MatchFill(lits: seq<string>, holes: seq<string>, tail: string)
    requires |lits| == |holes| + 1
    requires Readable(lits, holes)
    ensures Match(lits, Fill(lits, holes) + tail) == Some((holes, tail))
  {
    var s := Fill(lits, holes) + tail;
    if |holes| == 0 {
      assert s[|lits[0]|..] == tail;
    } else {
      var after := Fill(lits[1..], holes[1..]) + tail;
      MatchFill(lits[1..], holes[1..], tail);
      var rest := FillRest(lits, holes, tail);
      IndexOfPastHole(holes[0], lits[1], after);
      MatchStep(lits, s, |holes[0]|);
      assert rest[..|holes[0]|] == holes[0];
      assert rest[|holes[0]|..] == after;
      assert [holes[0]] + holes[1..] == holes;
    }
  }

  /** What follows the first fixed text of a filled template. */
  lemma FillRest(lits: seq<string>, holes: seq<string>, tail: string) returns (rest: string)
    requires |lits| == |holes| + 1 && |holes| > 0
    ensures lits[0] <= Fill(lits, holes) + tail
    ensures rest == (Fill(lits, holes) + tail)[|lits[0]|..]
    ensures rest == holes[0] + (Fill(lits[1..], holes[1..]) + tail)
  {
    var after := Fill(lits[1..], holes[1..]);
    assert Fill(lits, holes) + tail == lits[0] + (holes[0] + (after + tail));
    rest := holes[0] + (after + tail);
  }

  /** One step of Match past a hole that ends at position k. */
  lemma MatchStep(lits: seq<string>, s: string, k: nat)
    requires |lits| >= 2 && lits[0] <= s && |lits[1]| > 0
    requires k == IndexOf(s[|lits[0]|..], lits[1][0])
    ensures var rest := s[|lits[0]|..];
      Match(lits, s) ==
        match Match(lits[1..], rest[k..])
        case None => None
        case Some(m) => Some(([rest[..k]] + m.0, m.1))
  {
  }
}
