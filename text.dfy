/** The pieces of Python's string runtime that the report builder leans on:
    str.strip and str.lstrip, str.startswith (Dafny's prefix test `p <= s`),
    str.split('\n') and '\n'.join, plus a subsequence relation used to state
    that a pass only deletes lines. */
module Text {

  datatype Option<+T> = None | Some(value: T)

  /** Python's str.isspace() on one character: the whitespace set that a
      bare str.strip() removes. */
  predicate IsSpace(c: char) {
    || ('\t' <= c <= '\r')
    || ('\U{1C}' <= c <= ' ')
    || c == '\U{85}' || c == '\U{A0}' || c == '\U{1680}'
    || ('\U{2000}' <= c <= '\U{200A}')
    || c == '\U{2028}' || c == '\U{2029}' || c == '\U{202F}' || c == '\U{205F}' || c == '\U{3000}'
  }

  /** str.lstrip(): leading whitespace removed. */
  function TrimLeft(s: string): (r: string)
    ensures |r| <= |s|
  {
    if |s| > 0 && IsSpace(s[0]) then TrimLeft(s[1..]) else s
  }

  /** str.rstrip(): trailing whitespace removed. */
  function TrimRight(s: string): (r: string)
    ensures |r| <= |s|
  {
    if |s| > 0 && IsSpace(s[|s| - 1]) then TrimRight(s[..|s| - 1]) else s
  }

  /** str.strip(): surrounding whitespace removed. */
  function Strip(s: string): (r: string)
    ensures |r| <= |s|
  {
    TrimRight(TrimLeft(s))
  }

  /** str.lstrip('#'): every leading '#' removed. */
  function LStripHash(s: string): (r: string)
    ensures |r| <= |s|
  {
    if |s| > 0 && s[0] == '#' then LStripHash(s[1..]) else s
  }

  /** lstrip removes exactly the longest whitespace prefix: what is left is
      a suffix of the input that does not start with whitespace, and
      everything before it was whitespace. */
  lemma {:induction false} TrimLeftSpec(s: string)
    ensures var r := TrimLeft(s);
      && r == s[|s| - |r|..]
      && (r == [] || !IsSpace(r[0]))
      && forall i :: 0 <= i < |s| - |r| ==> IsSpace(s[i])
  {
    if |s| > 0 && IsSpace(s[0]) {
      TrimLeftSpec(s[1..]);
      var r := TrimLeft(s[1..]);
      assert forall i :: 1 <= i < |s| - |r| ==> s[i] == s[1..][i - 1];
    }
  }

  /** rstrip removes exactly the longest whitespace suffix. */
  lemma {:induction false} TrimRightSpec(s: string)
    ensures var r := TrimRight(s);
      && r == s[..|r|]
      && (r == [] || !IsSpace(r[|r| - 1]))
      && forall i :: |r| <= i < |s| ==> IsSpace(s[i])
  {
    if |s| > 0 && IsSpace(s[|s| - 1]) {
      TrimRightSpec(s[..|s| - 1]);
      var r := TrimRight(s[..|s| - 1]);
      assert forall i :: |r| <= i < |s| - 1 ==> s[i] == s[..|s| - 1][i];
    }
  }

  /** lstrip('#') removes exactly the longest run of leading '#'. */
  lemma {:induction false} LStripHashSpec(s: string)
    ensures var r := LStripHash(s);
      && r == s[|s| - |r|..]
      && (r == [] || r[0] != '#')
      && forall i :: 0 <= i < |s| - |r| ==> s[i] == '#'
  {
    if |s| > 0 && s[0] == '#' {
      LStripHashSpec(s[1..]);
      var r := LStripHash(s[1..]);
      assert forall i :: 1 <= i < |s| - |r| ==> s[i] == s[1..][i - 1];
    }
  }

  /** A stripped string is a contiguous piece of the input that neither
      starts nor ends with whitespace; only whitespace was cut away. */
  lemma StripSpec(s: string) returns (lo: nat)
    ensures var r := Strip(s);
      && lo + |r| <= |s| && r == s[lo..lo + |r|]
      && (r == [] || (!IsSpace(r[0]) && !IsSpace(r[|r| - 1])))
      && (forall i :: 0 <= i < lo ==> IsSpace(s[i]))
      && (forall i :: lo + |r| <= i < |s| ==> IsSpace(s[i]))
  {
    var l := TrimLeft(s);
    TrimLeftSpec(s);
    TrimRightSpec(l);
    lo := |s| - |l|;
    var r := Strip(s);
    assert r == l[..|r|];
    assert forall i :: lo + |r| <= i < |s| ==> s[i] == l[i - lo];
  }

  /** A string whose ends are not whitespace is its own strip. */
  lemma StripUnpadded(s: string)
    requires s == [] || (!IsSpace(s[0]) && !IsSpace(s[|s| - 1]))
    ensures Strip(s) == s
  {
  }

  /** Stripping twice is stripping once. */
  lemma StripIdempotent(s: string)
    ensures Strip(Strip(s)) == Strip(s)
  {
    var _ := StripSpec(s);
    StripUnpadded(Strip(s));
  }

  /** Every character of a slice occurs in the whole. */
  lemma SliceChars(s: string, lo: nat, hi: nat, c: char)
    requires lo <= hi <= |s| && c in s[lo..hi]
    ensures c in s
  {
    var i :| 0 <= i < hi - lo && s[lo..hi][i] == c;
    assert s[lo + i] == c;
  }

  /** The first position of `c` in `s`, or |s| when there is none
      (str.find with |s| for -1). */
  function IndexOf(s: string, c: char): (r: nat)
    ensures r <= |s|
    ensures forall i :: 0 <= i < r ==> s[i] != c
    ensures r < |s| ==> s[r] == c
  {
    if |s| == 0 then 0 else if s[0] == c then 0 else 1 + IndexOf(s[1..], c)
  }

  /** str.split('\n'): the pieces between newlines; always at least one. */
  function Split(s: string): (lines: seq<string>)
    ensures |lines| >= 1
    decreases |s|
  {
    var i := IndexOf(s, '\n');
    if i == |s| then [s] else [s[..i]] + Split(s[i + 1..])
  }

  /** No piece of a split holds a newline. */
  lemma {:induction false} SplitNoNewlines(s: string)
    ensures forall k :: 0 <= k < |Split(s)| ==> '\n' !in Split(s)[k]
    decreases |s|
  {
    var i := IndexOf(s, '\n');
    if i < |s| {
      SplitNoNewlines(s[i + 1..]);
      var rest := Split(s[i + 1..]);
      assert Split(s) == [s[..i]] + rest;
      assert '\n' !in s[..i];
      assert forall k :: 1 <= k < |Split(s)| ==> Split(s)[k] == rest[k - 1];
    }
  }

  /** '\n'.join(lines). */
  function Join(lines: seq<string>): string {
    if |lines| == 0 then ""
    else if |lines| == 1 then lines[0]
    else lines[0] + "\n" + Join(lines[1..])
  }

  /** Joining one more line in front. */
  lemma JoinCons(a: string, rest: seq<string>)
    requires |rest| >= 1
    ensures Join([a] + rest) == a + "\n" + Join(rest)
  {
    assert ([a] + rest)[1..] == rest;
  }

  /** Splitting at the first newline. */
  lemma SplitAtFirst(s: string)
    requires IndexOf(s, '\n') < |s|
    ensures var i := IndexOf(s, '\n');
      Split(s) == [s[..i]] + Split(s[i + 1..]) && s == s[..i] + "\n" + s[i + 1..]
  {
    var i := IndexOf(s, '\n');
    SliceAround(s, i);
  }

  lemma SliceAround(s: string, i: nat)
    requires i < |s| && s[i] == '\n'
    ensures s == s[..i] + "\n" + s[i + 1..]
  {
  }

  /** Joining the pieces of a split gives back the text. */
  lemma {:induction false} JoinSplit(s: string)
    ensures Join(Split(s)) == s
    decreases |s|
  {
    var i := IndexOf(s, '\n');
    if i < |s| {
      var rest := Split(s[i + 1..]);
      SplitAtFirst(s);
      JoinCons(s[..i], rest);
      JoinSplit(s[i + 1..]);
    }
  }

  /** Splitting a join of newline-free lines gives back the lines. */
  lemma {:induction false} SplitJoin(lines: seq<string>)
    requires |lines| >= 1
    requires forall i :: 0 <= i < |lines| ==> '\n' !in lines[i]
    ensures Split(Join(lines)) == lines
  {
    var s := Join(lines);
    var first := lines[0];
    if |lines| == 1 {
    } else {
      var tail := Join(lines[1..]);
      assert s == first + "\n" + tail;
      var i := IndexOf(s, '\n');
      assert s[|first|] == '\n';
      assert i == |first|;
      assert s[..i] == first;
      assert s[i + 1..] == tail;
      SplitJoin(lines[1..]);
      assert lines == [first] + lines[1..];
    }
  }

  /** A non-empty sequence is its head followed by its tail. */
  lemma ConsSplit<T>(s: seq<T>)
    requires s != []
    ensures [s[0]] + s[1..] == s
  {
  }

  lemma AppendAssoc<T>(a: seq<T>, b: seq<T>, c: seq<T>)
    ensures a + (b + c) == (a + b) + c
  {
  }

  /** `a` is `b` with some elements deleted, order kept (Python list
      order). */
  ghost predicate IsSubseq<T>(a: seq<T>, b: seq<T>)
    decreases |b|
  {
    if a == [] then true
    else if b == [] then false
    else (a[0] == b[0] && IsSubseq(a[1..], b[1..])) || IsSubseq(a, b[1..])
  }

  lemma SubseqKeep<T>(x: T, a: seq<T>, b: seq<T>)
    requires IsSubseq(a, b)
    ensures IsSubseq([x] + a, [x] + b)
  {
    assert ([x] + a)[1..] == a;
    assert ([x] + b)[1..] == b;
  }

  lemma SubseqDrop<T>(x: T, a: seq<T>, b: seq<T>)
    requires IsSubseq(a, b)
    ensures IsSubseq(a, [x] + b)
  {
    assert ([x] + b)[1..] == b;
  }

  lemma {:induction false} SubseqRefl<T>(a: seq<T>)
    ensures IsSubseq(a, a)
  {
    if a != [] {
      SubseqRefl(a[1..]);
    }
  }
}
