/** build_index (build.py lines 591-795): the download page. Each build
    result becomes an entry with a size label; the entries are split by
    organisation, keeping their order, and each list is rendered as cards.
    The page head with its stylesheet is a fixed text and a parameter here;
    writing the file is left to the caller. */
module Index {
  import opened Text
  import opened Html

  /** The fields of a report description that build_index reads. */
  datatype Report = Report(title: string, org: string, pdfName: string, description: string)

  /** A build result: the report and the size of its PDF in bytes, 0 when
      the build failed. */
  datatype BuildResult = BuildResult(report: Report, size: int)

  /** One card of the page. */
  datatype Entry = Entry(title: string, description: string, pdf: string, size: string)

  const Cranberry: string := "Elm Lake Cranberry"
  const MiB: nat := 1048576

  // ---------------------------------------------------------------------
  // The size label of build.py line 602: "N/A" unless the size is positive,
  // otherwise the size in mebibytes with one decimal, followed by " MB"

  /** num / den rounded to the nearest integer, ties to the even one. */
  function RoundHalfEven(num: nat, den: nat): nat
    requires den > 0
  {
    var q, r := num / den, num % den;
    if 2 * r < den then q
    else if 2 * r > den then q + 1
    else if q % 2 == 0 then q
    else q + 1
  }

  /** The rounded quotient is within half a unit of the exact one, and a
      tie goes to the even neighbour. */
  lemma RoundHalfEvenNearest(num: nat, den: nat)
    requires den > 0
    ensures var q := RoundHalfEven(num, den);
      && 2 * num <= (2 * q + 1) * den
      && (2 * q - 1) * den <= 2 * num
      && (2 * num == (2 * q + 1) * den || (2 * q - 1) * den == 2 * num ==> q % 2 == 0)
  {
    var q, r := num / den, num % den;
    assert num == q * den + r;
    assert 2 * num == 2 * q * den + 2 * r;
    assert (2 * q + 1) * den == 2 * q * den + den;
    assert (2 * q - 1) * den == 2 * q * den - den;
    assert (2 * (q + 1) + 1) * den == 2 * q * den + 3 * den;
    assert (2 * (q + 1) - 1) * den == 2 * q * den + den;
  }

  /** The size in tenths of a mebibyte, rounded as Python's `.1f` rounds
      the exact quotient size / 2^20. */
  function Tenths(size: nat): nat {
    RoundHalfEven(10 * size, MiB)
  }

  function Digit(d: nat): char
    requires d < 10
  {
    "0123456789"[d]
  }

  /** A natural number in decimal without leading zeros. */
  function Decimal(n: nat): (s: string)
    ensures |s| > 0 && AllDigits(s)
  {
    if n < 10 then [Digit(n)] else Decimal(n / 10) + [Digit(n % 10)]
  }

  /** The value of a string of decimal digits. */
  function DigitsValue(s: string): nat
    requires AllDigits(s)
  {
    if s == [] then 0
    else 10 * DigitsValue(s[..|s| - 1]) + (s[|s| - 1] as int - '0' as int)
  }

  lemma {:induction false} DecimalValue(n: nat)
    ensures DigitsValue(Decimal(n)) == n
    ensures n > 0 ==> Decimal(n)[0] != '0'
  {
    if n >= 10 {
      DecimalValue(n / 10);
      var s := Decimal(n);
      assert s[..|s| - 1] == Decimal(n / 10);
    }
  }

  /** The label of one result. */
  function SizeLabel(size: int): string {
    if size > 0 then
      var t := Tenths(size);
      Decimal(t / 10) + "." + [Digit(t % 10)] + " MB"
    else "N/A"
  }

  predicate IsDigit(c: char) {
    '0' <= c <= '9'
  }

  predicate AllDigits(s: string) {
    forall i :: 0 <= i < |s| ==> IsDigit(s[i])
  }

  /** Reads a megabyte label back as tenths. */
  function ParseMegabytes(text: string): Option<nat> {
    if |text| >= 6 && text[|text| - 3..] == " MB" && text[|text| - 5] == '.'
       && AllDigits(text[..|text| - 5]) && IsDigit(text[|text| - 4])
    then Some(DigitsValue(text[..|text| - 5]) * 10 + (text[|text| - 4] as int - '0' as int))
    else None
  }

  /** "N/A" exactly for a failed build (size 0, or anything not
      positive). */
  lemma SizeLabelUnavailable(size: int)
    ensures SizeLabel(size) == "N/A" <==> size <= 0
  {
    if size > 0 {
      var text := SizeLabel(size);
      assert text[|text| - 1] == 'B';
    }
  }

  lemma DigitValue(d: nat)
    requires d < 10
    ensures Digit(d) as int - '0' as int == d
  {
    if d == 0 {} else if d == 1 {} else if d == 2 {} else if d == 3 {} else if d == 4 {}
    else if d == 5 {} else if d == 6 {} else if d == 7 {} else if d == 8 {}
  }

  /** A label of digits, a point, one digit and " MB" reads back. */
  lemma ParseMegabytesOf(whole: string, d: nat)
    requires |whole| > 0 && AllDigits(whole)
    requires d < 10
    ensures ParseMegabytes(whole + "." + [Digit(d)] + " MB") == Some(DigitsValue(whole) * 10 + d)
  {
    var text := whole + "." + [Digit(d)] + " MB";
    var n := |whole|;
    assert |text| == n + 5;
    assert text[..n] == whole;
    assert text[n] == '.' && text[n + 1] == Digit(d);
    assert text[n + 2..] == " MB";
    ParseMegabytesAt(text, whole, d);
  }

  lemma ParseMegabytesAt(text: string, whole: string, d: nat)
    requires |whole| > 0 && AllDigits(whole) && d < 10
    requires |text| == |whole| + 5 && text[..|whole|] == whole
    requires text[|whole|] == '.' && text[|whole| + 1] == Digit(d) && text[|whole| + 2..] == " MB"
    ensures ParseMegabytes(text) == Some(DigitsValue(whole) * 10 + d)
  {
    DigitValue(d);
  }

  /** For a built report the label reads back as the size in tenths of a
      mebibyte, and that is the exact size rounded to the nearest tenth. */
  lemma SizeLabelMegabytes(size: int)
    requires size > 0
    ensures ParseMegabytes(SizeLabel(size)) == Some(Tenths(size))
    ensures 2 * 10 * size <= (2 * Tenths(size) + 1) * MiB
    ensures (2 * Tenths(size) - 1) * MiB <= 2 * 10 * size
  {
    var t := Tenths(size);
    DecimalValue(t / 10);
    ParseMegabytesOf(Decimal(t / 10), t % 10);
    RoundHalfEvenNearest(10 * size, MiB);
  }

  /** 1,572,864 bytes, one and a half mebibytes, is labelled "1.5 MB". */
  lemma SizeLabelExample()
    ensures SizeLabel(1572864) == "1.5 MB"
  {
    assert Tenths(1572864) == 15;
  }

  /** A label never holds markup characters, so it is safe in a card. */
  lemma SizeLabelPlain(size: int)
    ensures forall i :: 0 <= i < |SizeLabel(size)| ==> !IsMarkup(SizeLabel(size)[i])
  {
  }

  // ---------------------------------------------------------------------
  // The partition by organisation

  predicate IsCranberry(r: BuildResult) {
    r.report.org == Cranberry
  }

  /** The entry dictionary built for one result. */
  function EntryFor(r: BuildResult): Entry {
    Entry(r.report.title, r.report.description, r.report.pdfName, SizeLabel(r.size))
  }

  /** The results that go to the Cranberry list (`cranberry`) or to the
      Labs list (not `cranberry`), in input order. */
  function Select(results: seq<BuildResult>, cranberry: bool): seq<BuildResult> {
    if results == [] then []
    else (if IsCranberry(results[0]) == cranberry then [results[0]] else []) + Select(results[1..], cranberry)
  }

  function EntriesOf(results: seq<BuildResult>): (es: seq<Entry>)
    ensures |es| == |results|
  {
    if results == [] then [] else [EntryFor(results[0])] + EntriesOf(results[1..])
  }

  lemma {:induction false} SelectAppend(results: seq<BuildResult>, r: BuildResult, cranberry: bool)
    ensures Select(results + [r], cranberry)
         == Select(results, cranberry) + (if IsCranberry(r) == cranberry then [r] else [])
  {
    if results == [] {
      assert [r][1..] == [];
    } else {
      var head := if IsCranberry(results[0]) == cranberry then [results[0]] else [];
      var tail := if IsCranberry(r) == cranberry then [r] else [];
      assert (results + [r])[0] == results[0];
      assert (results + [r])[1..] == results[1..] + [r];
      SelectAppend(results[1..], r, cranberry);
      AppendAssoc(head, Select(results[1..], cranberry), tail);
    }
  }

  lemma {:induction false} EntriesOfAppend(a: seq<BuildResult>, b: seq<BuildResult>)
    ensures EntriesOf(a + b) == EntriesOf(a) + EntriesOf(b)
  {
    if a == [] {
      assert a + b == b;
    } else {
      assert (a + b)[1..] == a[1..] + b;
      EntriesOfAppend(a[1..], b);
    }
  }

  /** Every result in the Cranberry list has the organisation "Elm Lake
      Cranberry", and every result in the Labs list another one. */
  lemma {:induction false} SelectSound(results: seq<BuildResult>, cranberry: bool)
    ensures forall i :: 0 <= i < |Select(results, cranberry)| ==> IsCranberry(Select(results, cranberry)[i]) == cranberry
  {
    if results != [] {
      SelectSound(results[1..], cranberry);
    }
  }

  /** The converse: every result of the organisation lands in its list,
      with every one of its occurrences, and no other result does. */
  lemma {:induction false} SelectComplete(results: seq<BuildResult>, cranberry: bool)
    ensures forall r :: multiset(Select(results, cranberry))[r]
                     == if IsCranberry(r) == cranberry then multiset(results)[r] else 0
    ensures forall r :: r in Select(results, cranberry) <==> r in results && IsCranberry(r) == cranberry
  {
    if results != [] {
      var r, rest := results[0], results[1..];
      assert results == [r] + rest;
      SelectComplete(rest, cranberry);
    }
  }

  /** Both lists keep input order. */
  lemma {:induction false} SelectOrdered(results: seq<BuildResult>, cranberry: bool)
    ensures IsSubseq(Select(results, cranberry), results)
  {
    if results != [] {
      var r, rest := results[0], results[1..];
      assert results == [r] + rest;
      SelectOrdered(rest, cranberry);
      if IsCranberry(r) == cranberry {
        SubseqKeep(r, Select(rest, cranberry), rest);
      } else {
        assert Select(results, cranberry) == Select(rest, cranberry);
        SubseqDrop(r, Select(rest, cranberry), rest);
      }
    }
  }

  /** Every result is in exactly one list: together the lists are the
      results, and their lengths add up to the number of results. */
  lemma {:induction false} SelectPartition(results: seq<BuildResult>)
    ensures multiset(Select(results, true)) + multiset(Select(results, false)) == multiset(results)
    ensures |Select(results, true)| + |Select(results, false)| == |results|
  {
    if results != [] {
      var r, rest := results[0], results[1..];
      assert results == [r] + rest;
      SelectPartition(rest);
    }
  }

  /** One more result adds its entry to the end of exactly one list. */
  lemma SelectStep(prefix: seq<BuildResult>, r: BuildResult, labs: seq<Entry>, cranberry: seq<Entry>,
                   labs': seq<Entry>, cranberry': seq<Entry>)
    requires labs == EntriesOf(Select(prefix, false)) && cranberry == EntriesOf(Select(prefix, true))
    requires if IsCranberry(r) then labs' == labs && cranberry' == cranberry + [EntryFor(r)]
             else labs' == labs + [EntryFor(r)] && cranberry' == cranberry
    ensures labs' == EntriesOf(Select(prefix + [r], false))
    ensures cranberry' == EntriesOf(Select(prefix + [r], true))
  {
    assert EntriesOf([r]) == [EntryFor(r)];
    SelectAppend(prefix, r, true);
    SelectAppend(prefix, r, false);
    if IsCranberry(r) {
      EntriesOfAppend(Select(prefix, true), [r]);
      assert Select(prefix, false) + [] == Select(prefix, false);
    } else {
      EntriesOfAppend(Select(prefix, false), [r]);
      assert Select(prefix, true) + [] == Select(prefix, true);
    }
  }

  // ---------------------------------------------------------------------
  // render_cards

  /** The icon of the download button, as the characters stored in the
      source text (the UTF-8 bytes of U+1F4C4 read as Windows-1252). */
  const DownloadIcon: string := "\U{F0}\U{178}\U{201C}\U{201E}"

  const CardOpen: string := "\n            <div class=\"card\">\n                <h3>"
  const CardAfterTitle: string := "</h3>\n                <p>"
  const CardAfterText: string := "</p>" + "\n                <div class=\"card-footer\">\n                    <a href=\""
  const CardAfterLink: string := "\" class=\"download-btn\">" + DownloadIcon + " Download PDF</a>\n                    <span class=\"file-size\">"
  const CardClose: string := "</span>" + "\n                </div>\n            </div>\n            "

  /** The card template of render_cards around its four holes. */
  const CardLits: seq<string> := [CardOpen, CardAfterTitle, CardAfterText, CardAfterLink, CardClose]

  lemma CardLitsStart()
    ensures CardLits[1][0] == '<' && CardLits[2][0] == '<' && CardLits[3][0] == '"' && CardLits[4][0] == '<'
  {
    assert CardAfterTitle[0] == '<';
    assert CardAfterText[0] == '<';
    assert CardAfterLink[0] == '"';
    assert CardClose[0] == '<';
  }

  /** One card: title and description escaped, link and size label as they
      are. */
  function Card(e: Entry): string {
    Fill(CardLits, [Escape(e.title), Escape(e.description), e.pdf, e.size])
  }

  function Cards(entries: seq<Entry>): string {
    if entries == [] then "" else Card(entries[0]) + Cards(entries[1..])
  }

  /** render_cards(entries). */
  method RenderCards(entries: seq<Entry>) returns (cards: string)
    ensures cards == Cards(entries)
  {
    cards := "";
    var i := 0;
    while i < |entries|
      invariant 0 <= i <= |entries|
      invariant cards + Cards(entries[i..]) == Cards(entries)
    {
      var e := entries[i];
      ghost var before := cards;
      cards := cards + Fill(CardLits, [Escape(e.title), Escape(e.description), e.pdf, e.size]);
      CardsStep(entries, i, before, cards);
      i := i + 1;
    }
    assert entries[i..] == [];
  }

  /** One turn of the render_cards loop keeps its invariant. */
  lemma CardsStep(entries: seq<Entry>, i: nat, before: string, after: string)
    requires i < |entries|
    requires before + Cards(entries[i..]) == Cards(entries)
    requires after == before + Card(entries[i])
    ensures after + Cards(entries[i + 1..]) == Cards(entries)
  {
    CardsUnfold(entries, i);
    AppendAssoc(before, Card(entries[i]), Cards(entries[i + 1..]));
  }

  lemma CardsUnfold(entries: seq<Entry>, i: nat)
    requires i < |entries|
    ensures Cards(entries[i..]) == Card(entries[i]) + Cards(entries[i + 1..])
  {
    assert entries[i..][1..] == entries[i + 1..];
  }

  /** Reads one card off the front of `s`. */
  function ParseCard(s: string): (r: Option<(Entry, string)>)
    ensures r.Some? ==> |r.value.1| < |s|
  {
    match Match(CardLits, s)
    case None => None
    case Some(m) =>
      var h := m.0;
      Some((Entry(Unescape(h[0]), Unescape(h[1]), h[2], h[3]), m.1))
  }

  function ParseCards(s: string): Option<seq<Entry>>
    decreases |s|
  {
    if s == [] then Some([])
    else match ParseCard(s)
      case None => None
      case Some((e, rest)) =>
        match ParseCards(rest)
        case None => None
        case Some(es) => Some([e] + es)
  }

  /** The link of a card may not hold a quote, which would end the href
      attribute, and its size label no '<'. */
  predicate CardSafe(e: Entry) {
    '"' !in e.pdf && '<' !in e.size
  }

  lemma ParseOneCard(e: Entry, tail: string)
    requires CardSafe(e)
    ensures ParseCard(Card(e) + tail) == Some((e, tail))
  {
    var holes := [Escape(e.title), Escape(e.description), e.pdf, e.size];
    assert '<' !in holes[0] && '<' !in holes[1];
    CardLitsStart();
    assert Readable(CardLits[4..], holes[4..]);
    assert Readable(CardLits[3..], holes[3..]);
    assert Readable(CardLits[2..], holes[2..]);
    assert Readable(CardLits[1..], holes[1..]);
    assert Readable(CardLits, holes);
    MatchFill(CardLits, holes, tail);
    UnescapeEscape(e.title);
    UnescapeEscape(e.description);
  }

  /** One card per entry, in order, each carrying its entry: the cards read
      back as the entries. */
  lemma {:induction false} CardsRoundTrip(entries: seq<Entry>)
    requires forall i :: 0 <= i < |entries| ==> CardSafe(entries[i])
    ensures ParseCards(Cards(entries)) == Some(entries)
  {
    if entries != [] {
      CardsRoundTrip(entries[1..]);
      ParseCardsStep(entries);
    }
  }

  /** The first card, read off the front of the cards. */
  lemma ParseCardsStep(entries: seq<Entry>)
    requires entries != [] && CardSafe(entries[0])
    requires ParseCards(Cards(entries[1..])) == Some(entries[1..])
    ensures ParseCards(Cards(entries)) == Some(entries)
  {
    var tail := Cards(entries[1..]);
    assert Cards(entries) == Card(entries[0]) + tail;
    ParseOneCard(entries[0], tail);
    ParseCardsCons(Card(entries[0]) + tail, entries[0], tail, entries[1..]);
    ConsSplit(entries);
  }

  /** A card read off the front, followed by cards read from the rest. */
  lemma ParseCardsCons(s: string, e: Entry, rest: string, es: seq<Entry>)
    requires ParseCard(s) == Some((e, rest)) && ParseCards(rest) == Some(es)
    ensures ParseCards(s) == Some([e] + es)
  {
    assert |rest| < |s|;
  }

  /** The entries build_index makes can all be read back from their cards
      when no PDF name holds a quote. */
  lemma {:induction false} EntriesSafe(results: seq<BuildResult>)
    requires forall i :: 0 <= i < |results| ==> '"' !in results[i].report.pdfName
    ensures forall i :: 0 <= i < |EntriesOf(results)| ==> CardSafe(EntriesOf(results)[i])
  {
    if results != [] {
      SizeLabelPlain(results[0].size);
      EntriesSafe(results[1..]);
    }
  }

  // ---------------------------------------------------------------------
  // The page

  /** The page from the container on, around the two card lists: the
      header and the Labs section title, the Cranberry section title, and
      the footer. */
  const PageTop: string := "<div class=\"container\">\n    <header>\n        <h1>Elm Lake Labs \U{E2}\U{20AC}\U{201D} Research Reports</h1>\n        <p class=\"subtitle\">February 2026 &nbsp;\U{C2}\U{B7}&nbsp; Prepared by Henry Clawson, Executive Assistant</p>\n        <div class=\"divider\"></div>\n    </header>\n\n    <div class=\"section-title\">Elm Lake Labs Reports</div>\n    "
  const PageMiddle: string := "\n\n    <div class=\"section-title\">Elm Lake Cranberry Reports</div>\n    "
  const PageFooter: string := "\n\n    <footer>\n        <p>\U{C2}\U{A9} 2026 Elm Lake Labs &nbsp;\U{C2}\U{B7}&nbsp; Reports compiled February 14, 2026</p>\n    </footer>\n</div>\n\n</body>\n</html>"

  const PageLits: seq<string> := [PageTop, PageMiddle, PageFooter]

  /** The page text around the rendered Labs and Cranberry card lists. */
  function Page(labsCards: string, cranberryCards: string): string {
    Fill(PageLits, [labsCards, cranberryCards])
  }

  /** The page for the given results after the fixed head. */
  function IndexPage(head: string, results: seq<BuildResult>): string {
    head + Page(Cards(EntriesOf(Select(results, false))), Cards(EntriesOf(Select(results, true))))
  }

  /** One turn of the partition loop keeps its invariant. */
  lemma PartitionStep(results: seq<BuildResult>, i: nat, labs: seq<Entry>, cranberry: seq<Entry>,
                       labs': seq<Entry>, cranberry': seq<Entry>)
    requires i < |results|
    requires labs == EntriesOf(Select(results[..i], false))
    requires cranberry == EntriesOf(Select(results[..i], true))
    requires if results[i].report.org == "Elm Lake Cranberry"
             then labs' == labs && cranberry' == cranberry + [EntryFor(results[i])]
             else labs' == labs + [EntryFor(results[i])] && cranberry' == cranberry
    ensures labs' == EntriesOf(Select(results[..i + 1], false))
    ensures cranberry' == EntriesOf(Select(results[..i + 1], true))
  {
    assert results[..i + 1] == results[..i] + [results[i]];
    SelectStep(results[..i], results[i], labs, cranberry, labs', cranberry');
  }

  /** The partition loop of build_index: each result becomes a card entry
      in the Cranberry list or the Labs list, in input order. */
  method Partition(results: seq<BuildResult>) returns (ellReports: seq<Entry>, elcReports: seq<Entry>)
    ensures ellReports == EntriesOf(Select(results, false))
    ensures elcReports == EntriesOf(Select(results, true))
  {
    ellReports := [];
    elcReports := [];
    var i := 0;
    while i < |results|
      invariant 0 <= i <= |results|
      invariant ellReports == EntriesOf(Select(results[..i], false))
      invariant elcReports == EntriesOf(Select(results[..i], true))
    {
      var r := results[i];
      var report, size := r.report, r.size;
      var sizeText := SizeLabel(size);
      var entry := Entry(report.title, report.description, report.pdfName, sizeText);
      ghost var labs, cranberry := ellReports, elcReports;
      if report.org == "Elm Lake Cranberry" {
        elcReports := elcReports + [entry];
      } else {
        ellReports := ellReports + [entry];
      }
      PartitionStep(results, i, labs, cranberry, ellReports, elcReports);
      i := i + 1;
    }
    assert results[..i] == results;
  }

  /** build_index(results), returning the text it writes to index.html. */
  method BuildIndex(results: seq<BuildResult>, head: string) returns (page: string)
    ensures page == IndexPage(head, results)
  {
    var ellReports, elcReports := Partition(results);
    var labsCards := RenderCards(ellReports);
    var cranberryCards := RenderCards(elcReports);
    page := head + Page(labsCards, cranberryCards);
  }
}
