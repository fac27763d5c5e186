/** The heading clean-up that replaces every markdown link by its label
    (build.py lines 360 and 364), written as a left-to-right scan: at each
    position either a markdown link `[label](url)` starts there and is
    replaced by its label, or the character is copied. */
module Links {
  import opened Text

  /** The pattern matches s[..k + 1] with the label s[1..j] and the url
      s[j + 2..k]: a non-empty label free of ']' and a non-empty url free of
      ')'. */
  ghost predicate IsLinkAt(s: string, j: nat, k: nat) {
    && 2 <= j && j + 3 <= k < |s|
    && s[0] == '[' && s[j] == ']' && s[j + 1] == '(' && s[k] == ')'
    && (forall i :: 1 <= i < j ==> s[i] != ']')
    && (forall i :: j + 2 <= i < k ==> s[i] != ')')
  }

  /** Tries the pattern at the start of `s`. The greedy character classes
      cannot give back a character, so the label runs to the first ']' and
      the url to the first ')' after it. */
  function MatchLink(s: string): (m: Option<(nat, nat)>)
    ensures m.Some? ==> IsLinkAt(s, m.value.0, m.value.1)
  {
    if |s| == 0 || s[0] != '[' then None
    else
      var j := 1 + IndexOf(s[1..], ']');
      if j < 2 || j + 1 >= |s| || s[j + 1] != '(' then None
      else
        var k := j + 2 + IndexOf(s[j + 2..], ')');
        if k < j + 3 || k >= |s| then None
        else Some((j, k))
  }

  /** The scan finds a link exactly when the pattern matches there. */
  lemma MatchLinkExact(s: string, j: nat, k: nat)
    ensures MatchLink(s) == Some((j, k)) <==> IsLinkAt(s, j, k)
  {
    if IsLinkAt(s, j, k) {
      var j' := 1 + IndexOf(s[1..], ']');
      assert s[1..][j - 1] == ']';
      assert j' == j;
      var k' := j + 2 + IndexOf(s[j + 2..], ')');
      assert s[j + 2..][k - j - 2] == ')';
      assert k' == k;
    }
  }

  /** The title with every link reduced to its label. */
  function RemoveLinks(s: string): (r: string)
    ensures |r| <= |s|
    ensures '[' !in s ==> r == s
    decreases |s|
  {
    if |s| == 0 then []
    else match MatchLink(s)
      case Some((j, k)) => s[1..j] + RemoveLinks(s[k + 1..])
      case None =>
        assert '[' !in s ==> '[' !in s[1..];
        [s[0]] + RemoveLinks(s[1..])
  }

  /** A link at the front gives way to its label; the scan goes on after
      the closing parenthesis. */
  lemma LinkBecomesLabel(text: string, url: string, rest: string)
    requires |text| > 0 && ']' !in text
    requires |url| > 0 && ')' !in url
    ensures RemoveLinks("[" + text + "](" + url + ")" + rest) == text + RemoveLinks(rest)
  {
    var s := "[" + text + "](" + url + ")" + rest;
    var j, k := 1 + |text|, 3 + |text| + |url|;
    assert s[1..j] == text;
    assert forall i :: 1 <= i < j ==> s[i] == text[i - 1];
    assert forall i :: j + 2 <= i < k ==> s[i] == url[i - j - 2];
    assert IsLinkAt(s, j, k);
    MatchLinkExact(s, j, k);
    assert s[k + 1..] == rest;
  }
}
