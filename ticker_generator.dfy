/** `TickerGenerator.extract_marketwatch_tickers` (src/ticker_generator.py): the fund names
    and tickers of saved MarketWatch fund lists, written as `ticker|name` lines. Each saved
    page is seen through its cells of class "quotelist-name", in the order the pages are
    listed; downloading and the file system are not modelled. */
module TickerGenerator {
  import opened Wrappers
  import opened PyStrings
  import opened Patterns
  import opened AbstractScraper

  /** A `td` of class "quotelist-name": its text, and the attributes of the first `a` inside
      it, or None when it holds no link. */
  datatype NameCell = NameCell(name: string, anchor: Option<map<string, string>>)

  /** `re.findall(tickerpattern, tag.find("a").attrs["href"])[0][1:]`: a cell without a link
      raises AttributeError, a link without an href KeyError, an href without a ticker
      IndexError. */
  function CellTicker(cell: NameCell): (r: Result<string>)
    ensures r.Err? ==> r.error in {AttributeError, KeyError, IndexError}
  {
    match cell.anchor
    case None => Err(AttributeError)
    case Some(attrs) => if "href" in attrs then FirstTicker(attrs["href"]) else Err(KeyError)
  }

  /** The ticker of a cell is the two to five capitals after the leftmost slash in its href
      that the pattern matches at, and IndexError is raised exactly when the href has none. */
  lemma CellTickerSpec(cell: NameCell)
    ensures CellTicker(cell) == Err(AttributeError) <==> cell.anchor.None?
    ensures CellTicker(cell) == Err(KeyError) <==> cell.anchor.Some? && "href" !in cell.anchor.value
    ensures cell.anchor.Some? && "href" in cell.anchor.value ==>
      var href := cell.anchor.value["href"];
      (CellTicker(cell).Err? <==> forall i, w :: 0 <= i <= |href| ==> !TickerMatch(href, i, w)) &&
      (CellTicker(cell).Ok? ==>
        LeftmostTicker(href, CellTicker(cell).value) &&
        2 <= |CellTicker(cell).value| <= 5 && AllIn(CellTicker(cell).value, Uppers))
  {
    if cell.anchor.Some? && "href" in cell.anchor.value {
      FirstTickerSpec(cell.anchor.value["href"]);
    }
  }

  /** The ticker list comprehension of one page: the first cell that raises ends it. */
  function PageTickers(cells: seq<NameCell>): (r: Result<seq<string>>)
    ensures r.Ok? ==> |r.value| == |cells|
    ensures r.Ok? ==> forall i :: 0 <= i < |cells| ==> CellTicker(cells[i]) == Ok(r.value[i])
    decreases |cells|
  {
    if cells == [] then Ok([])
    else
      match CellTicker(cells[0])
      case Err(e) => Err(e)
      case Ok(t) =>
        match PageTickers(cells[1..])
        case Err(e) => Err(e)
        case Ok(ts) => Ok([t] + ts)
  }

  /** A page fails with the exception of its first cell that raises. */
  lemma {:induction false} PageTickersFails(cells: seq<NameCell>)
    requires PageTickers(cells).Err?
    ensures exists i ::
      (0 <= i < |cells| && CellTicker(cells[i]) == Err(PageTickers(cells).error) &&
       forall j :: 0 <= j < i ==> CellTicker(cells[j]).Ok?)
    decreases |cells|
  {
    if CellTicker(cells[0]).Ok? {
      PageTickersFails(cells[1..]);
      var i :| 0 <= i < |cells[1..]| && CellTicker(cells[1..][i]) == Err(PageTickers(cells[1..]).error) &&
        forall j :: 0 <= j < i ==> CellTicker(cells[1..][j]).Ok?;
      assert CellTicker(cells[i + 1]) == Err(PageTickers(cells).error);
      forall j | 0 <= j < i + 1 ensures CellTicker(cells[j]).Ok? {
        if j > 0 {
          assert cells[j] == cells[1..][j - 1];
        }
      }
    } else {
      assert CellTicker(cells[0]) == Err(PageTickers(cells).error);
    }
  }

  /** `[tag.text for tag in fundname_tags]` */
  function PageNames(cells: seq<NameCell>): (r: seq<string>)
    ensures |r| == |cells| && forall i :: 0 <= i < |cells| ==> r[i] == cells[i].name
  {
    seq(|cells|, i requires 0 <= i < |cells| => cells[i].name)
  }

  /** `"%s|%s\n" % (ticker, name)` */
  function TickerLine(ticker: string, name: string): string {
    ticker + "|" + name + "\n"
  }

  /** The lines for the pairs of `zip(tickers, names)`, in order. */
  function PairLines(tickers: seq<string>, names: seq<string>): string
    decreases |tickers|
  {
    if tickers == [] || names == [] then ""
    else TickerLine(tickers[0], names[0]) + PairLines(tickers[1..], names[1..])
  }

  /** What the loop over the pages leaves in the ticker list file, and the exception that
      stopped it, if any: the lines written before the exception stay written. */
  datatype Written = Written(text: string, error: Option<PyError>)

  /** The position of the first pair whose line the file, opened in text mode under Python 2,
      cannot encode as ASCII; the number of pairs when there is none. */
  function FirstUnencodable(tickers: seq<string>, names: seq<string>): (n: nat)
    ensures n <= |tickers| && n <= |names|
    ensures forall i :: 0 <= i < n ==> IsAscii(TickerLine(tickers[i], names[i]))
    ensures n < |tickers| && n < |names| ==> !IsAscii(TickerLine(tickers[n], names[n]))
    decreases |tickers|
  {
    if tickers == [] || names == [] || !IsAscii(TickerLine(tickers[0], names[0])) then 0
    else 1 + FirstUnencodable(tickers[1..], names[1..])
  }

  /** A line is encodable exactly when its ticker and its name are. */
  lemma TickerLineAscii(ticker: string, name: string)
    ensures IsAscii(TickerLine(ticker, name)) <==> IsAscii(ticker) && IsAscii(name)
  {
    var line := TickerLine(ticker, name);
    assert forall i :: 0 <= i < |ticker| ==> line[i] == ticker[i];
    assert forall i :: 0 <= i < |name| ==> line[|ticker| + 1 + i] == name[i];
  }

  /** One page added to the text written so far: the exception its ticker list raised, with
      nothing of the page written, or its lines up to the first one that cannot be encoded. */
  function PageStep(text: string, cells: seq<NameCell>): Written {
    match PageTickers(cells)
    case Err(e) => Written(text, Some(e))
    case Ok(tickers) =>
      var names := PageNames(cells);
      var n := FirstUnencodable(tickers, names);
      Written(text + PairLines(tickers[..n], names[..n]),
              if n < |tickers| then Some(UnicodeEncodeError) else None)
  }

  function Extracted(pages: seq<seq<NameCell>>): Written
    decreases |pages|
  {
    if pages == [] then Written("", None)
    else
      var front := Extracted(pages[..|pages| - 1]);
      if front.error.Some? then front else PageStep(front.text, pages[|pages| - 1])
  }

  /** The body of the loop over the pages: the names, the tickers, then the pairs' lines. */
  method WritePage(text: string, cells: seq<NameCell>) returns (written: Written)
    ensures written == PageStep(text, cells)
  {
    var fundnames := PageNames(cells);
    var fundtickers := PageTickers(cells);
    if fundtickers.Err? {
      return Written(text, Some(fundtickers.error));
    }
    var out, complete := WriteLines(text, fundtickers.value, fundnames);
    PageStepAt(text, cells, FirstUnencodable(fundtickers.value, fundnames));
    return Written(out, if complete then None else Some(UnicodeEncodeError));
  }

  /** `for ticker, name in zip(fundtickers, fundnames)`: each line is encoded as it is
      written, and the first one that cannot be stops the loop with the lines before it
      written. */
  method WriteLines(text: string, tickers: seq<string>, names: seq<string>) returns (out: string, complete: bool)
    requires |tickers| == |names|
    ensures var n := FirstUnencodable(tickers, names);
      out == text + PairLines(tickers[..n], names[..n]) && (complete <==> n == |tickers|)
  {
    out := text;
    var k := 0;
    while k < |tickers|
      invariant 0 <= k <= |tickers|
      invariant out == text + PairLines(tickers[..k], names[..k])
      invariant forall i :: 0 <= i < k ==> IsAscii(TickerLine(tickers[i], names[i]))
    {
      var line := TickerLine(tickers[k], names[k]);
      if !IsAscii(line) {
        FirstUnencodableAt(tickers, names, k);
        return out, false;
      }
      PairLinesSnoc(tickers, names, k);
      out := out + line;
      k := k + 1;
    }
    FirstUnencodableAt(tickers, names, k);
    return out, true;
  }

  /** The first pair that cannot be encoded is the one after a run of encodable ones. */
  lemma FirstUnencodableAt(tickers: seq<string>, names: seq<string>, k: nat)
    requires k <= |tickers| && k <= |names|
    requires forall i :: 0 <= i < k ==> IsAscii(TickerLine(tickers[i], names[i]))
    requires k < |tickers| && k < |names| ==> !IsAscii(TickerLine(tickers[k], names[k]))
    ensures FirstUnencodable(tickers, names) == k
  {
  }

  /** The page's step once its tickers are known and its first unencodable line is at `k`. */
  lemma PageStepAt(text: string, cells: seq<NameCell>, k: nat)
    requires PageTickers(cells).Ok?
    requires FirstUnencodable(PageTickers(cells).value, PageNames(cells)) == k
    ensures PageStep(text, cells) == Written(
      text + PairLines(PageTickers(cells).value[..k], PageNames(cells)[..k]),
      if k < |cells| then Some(UnicodeEncodeError) else None)
  {
  }

  lemma PairLinesSnoc(tickers: seq<string>, names: seq<string>, k: nat)
    requires k < |tickers| && k < |names|
    ensures PairLines(tickers[..k + 1], names[..k + 1])
      == PairLines(tickers[..k], names[..k]) + TickerLine(tickers[k], names[k])
  {
    assert tickers[..k + 1] == tickers[..k] + [tickers[k]];
    assert names[..k + 1] == names[..k] + [names[k]];
    PairLinesConcat(tickers[..k], names[..k], [tickers[k]], [names[k]]);
    assert PairLines([tickers[k]], [names[k]]) == TickerLine(tickers[k], names[k]) + PairLines([], []);
  }

  /** `extract_marketwatch_tickers`: the pages in turn, until one raises. */
  method ExtractMarketwatchTickers(pages: seq<seq<NameCell>>) returns (written: Written)
    ensures written == Extracted(pages)
  {
    var text := "";
    var p := 0;
    while p < |pages|
      invariant 0 <= p <= |pages|
      invariant Extracted(pages[..p]) == Written(text, None)
    {
      assert pages[..p + 1][..p] == pages[..p];
      var step := WritePage(text, pages[p]);
      if step.error.Some? {
        ExtractedErrorSticks(pages, p + 1);
        return step;
      }
      text := step.text;
      p := p + 1;
    }
    assert pages[..p] == pages;
    return Written(text, None);
  }

  /** Once a page has raised, the pages after it add nothing and the exception stays. */
  lemma {:induction false} ExtractedErrorSticks(pages: seq<seq<NameCell>>, n: nat)
    requires n <= |pages| && Extracted(pages[..n]).error.Some?
    ensures Extracted(pages) == Extracted(pages[..n])
    decreases |pages| - n
  {
    if n < |pages| {
      assert pages[..n + 1][..n] == pages[..n];
      ExtractedErrorSticks(pages, n + 1);
    } else {
      assert pages[..n] == pages;
    }
  }

  /** All the tickers of the pages, in page order. */
  function AllTickers(pages: seq<seq<NameCell>>): (r: Result<seq<string>>)
    decreases |pages|
  {
    if pages == [] then Ok([])
    else
      match AllTickers(pages[..|pages| - 1])
      case Err(e) => Err(e)
      case Ok(front) =>
        match PageTickers(pages[|pages| - 1])
        case Err(e) => Err(e)
        case Ok(ts) => Ok(front + ts)
  }

  /** All the names of the pages, in page order. */
  function AllNames(pages: seq<seq<NameCell>>): seq<string>
    decreases |pages|
  {
    if pages == [] then [] else AllNames(pages[..|pages| - 1]) + PageNames(pages[|pages| - 1])
  }

  /** The lines of two runs of pairs follow each other. */
  lemma {:induction false} PairLinesConcat(t1: seq<string>, n1: seq<string>, t2: seq<string>, n2: seq<string>)
    requires |t1| == |n1|
    ensures PairLines(t1 + t2, n1 + n2) == PairLines(t1, n1) + PairLines(t2, n2)
    decreases |t1|
  {
    if t1 != [] {
      assert (t1 + t2)[1..] == t1[1..] + t2;
      assert (n1 + n2)[1..] == n1[1..] + n2;
      PairLinesConcat(t1[1..], n1[1..], t2, n2);
    } else {
      assert t1 + t2 == t2 && n1 + n2 == n2;
    }
  }

  /** Every pair's line can be encoded. */
  predicate LinesEncodable(tickers: seq<string>, names: seq<string>) {
    forall i :: 0 <= i < |tickers| && i < |names| ==> IsAscii(TickerLine(tickers[i], names[i]))
  }

  /** The first line that cannot be encoded in two runs of pairs is the first one of the
      first run, or else the first one of the second. */
  lemma {:induction false} FirstUnencodableConcat(t1: seq<string>, n1: seq<string>, t2: seq<string>, n2: seq<string>)
    requires |t1| == |n1|
    ensures FirstUnencodable(t1 + t2, n1 + n2)
      == if FirstUnencodable(t1, n1) < |t1| then FirstUnencodable(t1, n1) else |t1| + FirstUnencodable(t2, n2)
    decreases |t1|
  {
    if t1 == [] {
      assert t1 + t2 == t2 && n1 + n2 == n2;
    } else {
      assert (t1 + t2)[0] == t1[0] && (n1 + n2)[0] == n1[0];
      assert (t1 + t2)[1..] == t1[1..] + t2 && (n1 + n2)[1..] == n1[1..] + n2;
      if IsAscii(TickerLine(t1[0], n1[0])) {
        FirstUnencodableConcat(t1[1..], n1[1..], t2, n2);
      }
    }
  }

  /** The file is complete and without an error exactly when every page yields its tickers
      and no line stops the writing. An error is either UnicodeEncodeError or the first
      exception of the ticker lists; and whenever the ticker lists all succeed, the file holds
      exactly the lines before the first one that cannot be encoded, in page order. */
  lemma {:induction false} ExtractedAll(pages: seq<seq<NameCell>>)
    ensures AllTickers(pages).Ok? ==> |AllNames(pages)| == |AllTickers(pages).value|
    ensures Extracted(pages).error.None? <==>
      AllTickers(pages).Ok? && FirstUnencodable(AllTickers(pages).value, AllNames(pages)) == |AllTickers(pages).value|
    ensures Extracted(pages).error.Some? ==>
      Extracted(pages).error.value == UnicodeEncodeError || AllTickers(pages) == Err(Extracted(pages).error.value)
    ensures AllTickers(pages).Ok? ==>
      var n := FirstUnencodable(AllTickers(pages).value, AllNames(pages));
      Extracted(pages).text == PairLines(AllTickers(pages).value[..n], AllNames(pages)[..n])
    decreases |pages|
  {
    if pages != [] {
      var front := pages[..|pages| - 1];
      var cells := pages[|pages| - 1];
      ExtractedAll(front);
      if AllTickers(front).Err? {
        assert Extracted(pages) == Extracted(front) && AllTickers(pages) == AllTickers(front);
      } else if PageTickers(cells).Err? {
        assert AllTickers(pages) == Err(PageTickers(cells).error);
      } else {
        ExtractedAppend(pages);
      }
    }
  }

  /** `ExtractedAll`'s step for a last page whose tickers are read after a front whose
      tickers all are. */
  lemma ExtractedAppend(pages: seq<seq<NameCell>>)
    requires pages != []
    requires var front := pages[..|pages| - 1];
      AllTickers(front).Ok? && PageTickers(pages[|pages| - 1]).Ok? &&
      |AllNames(front)| == |AllTickers(front).value| &&
      (Extracted(front).error.None? <==>
        FirstUnencodable(AllTickers(front).value, AllNames(front)) == |AllTickers(front).value|) &&
      (Extracted(front).error.Some? ==> Extracted(front).error.value == UnicodeEncodeError) &&
      var n := FirstUnencodable(AllTickers(front).value, AllNames(front));
      Extracted(front).text == PairLines(AllTickers(front).value[..n], AllNames(front)[..n])
    ensures AllTickers(pages).Ok? && |AllNames(pages)| == |AllTickers(pages).value|
    ensures Extracted(pages).error.None? <==>
      FirstUnencodable(AllTickers(pages).value, AllNames(pages)) == |AllTickers(pages).value|
    ensures Extracted(pages).error.Some? ==> Extracted(pages).error.value == UnicodeEncodeError
    ensures var n := FirstUnencodable(AllTickers(pages).value, AllNames(pages));
      Extracted(pages).text == PairLines(AllTickers(pages).value[..n], AllNames(pages)[..n])
  {
    var front, cells := pages[..|pages| - 1], pages[|pages| - 1];
    var t1, n1 := AllTickers(front).value, AllNames(front);
    assert AllTickers(pages) == Ok(t1 + PageTickers(cells).value) && AllNames(pages) == n1 + PageNames(cells);
    if Extracted(front).error.Some? {
      StoppedPage(t1, n1, cells);
      assert Extracted(pages) == Extracted(front);
    } else {
      assert t1[..|t1|] == t1 && n1[..|n1|] == n1;
      OpenPage(Extracted(front).text, t1, n1, cells);
    }
  }

  /** A page after a line that could not be encoded: the first such line stays the first. */
  lemma StoppedPage(t1: seq<string>, n1: seq<string>, cells: seq<NameCell>)
    requires |t1| == |n1| && PageTickers(cells).Ok?
    requires FirstUnencodable(t1, n1) < |t1|
    ensures var t2, n2 := PageTickers(cells).value, PageNames(cells);
      var m1 := FirstUnencodable(t1, n1);
      var m := FirstUnencodable(t1 + t2, n1 + n2);
      m == m1 && (t1 + t2)[..m] == t1[..m1] && (n1 + n2)[..m] == n1[..m1]
  {
    var t2, n2 := PageTickers(cells).value, PageNames(cells);
    var m1 := FirstUnencodable(t1, n1);
    FirstUnencodableConcat(t1, n1, t2, n2);
    assert (t1 + t2)[..m1] == t1[..m1] && (n1 + n2)[..m1] == n1[..m1];
  }

  /** A page written after complete lines: its own lines follow them. */
  lemma OpenPage(text: string, t1: seq<string>, n1: seq<string>, cells: seq<NameCell>)
    requires |t1| == |n1| && PageTickers(cells).Ok?
    requires FirstUnencodable(t1, n1) == |t1| && text == PairLines(t1, n1)
    ensures var t2, n2 := PageTickers(cells).value, PageNames(cells);
      var m := FirstUnencodable(t1 + t2, n1 + n2);
      PageStep(text, cells) == Written(PairLines((t1 + t2)[..m], (n1 + n2)[..m]),
        if m < |t1 + t2| then Some(UnicodeEncodeError) else None)
  {
    var t2, n2 := PageTickers(cells).value, PageNames(cells);
    OpenLines(t1, n1, t2, n2);
    PageStepAt(text, cells, FirstUnencodable(t2, n2));
  }

  /** Lines written after complete lines: the first that cannot be encoded is in the second
      run, and the text is the first run's lines then the second run's up to it. */
  lemma OpenLines(t1: seq<string>, n1: seq<string>, t2: seq<string>, n2: seq<string>)
    requires |t1| == |n1| && |t2| == |n2| && FirstUnencodable(t1, n1) == |t1|
    ensures var m2 := FirstUnencodable(t2, n2);
      var m := FirstUnencodable(t1 + t2, n1 + n2);
      m == |t1| + m2 &&
      PairLines((t1 + t2)[..m], (n1 + n2)[..m]) == PairLines(t1, n1) + PairLines(t2[..m2], n2[..m2])
  {
    FirstUnencodableConcat(t1, n1, t2, n2);
    PairLinesAppend(t1, n1, t2, n2, FirstUnencodable(t2, n2));
  }

  /** The lines of a run of pairs followed by the first `k` pairs of another. */
  lemma PairLinesAppend(t1: seq<string>, n1: seq<string>, t2: seq<string>, n2: seq<string>, k: nat)
    requires |t1| == |n1| && k <= |t2| && k <= |n2|
    ensures PairLines((t1 + t2)[..|t1| + k], (n1 + n2)[..|t1| + k]) == PairLines(t1, n1) + PairLines(t2[..k], n2[..k])
  {
    assert (t1 + t2)[..|t1| + k] == t1 + t2[..k];
    assert (n1 + n2)[..|t1| + k] == n1 + n2[..k];
    PairLinesConcat(t1, n1, t2[..k], n2[..k]);
  }

  /** A run of pairs can be encoded exactly when its first unencodable line is past its end. */
  lemma LinesEncodableFirst(tickers: seq<string>, names: seq<string>)
    requires |tickers| == |names|
    ensures LinesEncodable(tickers, names) <==> FirstUnencodable(tickers, names) == |tickers|
  {
    var n := FirstUnencodable(tickers, names);
    if n < |tickers| {
      assert !IsAscii(TickerLine(tickers[n], names[n]));
    }
  }

  /** The file is written without an error exactly when every page yields its tickers and
      every line can be encoded as ASCII. */
  lemma ExtractedComplete(pages: seq<seq<NameCell>>)
    ensures Extracted(pages).error.None? <==>
      AllTickers(pages).Ok? && LinesEncodable(AllTickers(pages).value, AllNames(pages))
  {
    ExtractedAll(pages);
    if AllTickers(pages).Ok? {
      LinesEncodableFirst(AllTickers(pages).value, AllNames(pages));
    }
  }

  /** Every ticker of a complete run is two to five capitals. */
  lemma {:induction false} AllTickersUpper(pages: seq<seq<NameCell>>)
    requires AllTickers(pages).Ok?
    ensures forall i :: 0 <= i < |AllTickers(pages).value| ==>
      2 <= |AllTickers(pages).value[i]| <= 5 && AllIn(AllTickers(pages).value[i], Uppers)
    decreases |pages|
  {
    if pages != [] {
      var front := pages[..|pages| - 1];
      var cells := pages[|pages| - 1];
      AllTickersUpper(front);
      var ft := AllTickers(front).value;
      var ts := PageTickers(cells).value;
      assert AllTickers(pages).value == ft + ts;
      forall i | 0 <= i < |ts| ensures 2 <= |ts[i]| <= 5 && AllIn(ts[i], Uppers) {
        CellTickerSpec(cells[i]);
      }
    }
  }

  /** `s.split(c)` on text whose first `c` ends the piece `a`. */
  lemma SplitAt(a: string, c: char, b: string)
    requires c !in a
    ensures Split(a + [c] + b, c) == [a] + Split(b, c)
  {
    var s := a + [c] + b;
    assert s[|a|] == c;
    assert IndexOf(s, c) == |a| by {
      forall j | 0 <= j < |a| ensures s[j] != c {
        assert s[j] == a[j];
      }
    }
    assert s[..|a|] == a;
    assert s[|a| + 1..] == b;
  }

  /** The `ticker|name` lines of the pairs, without their newlines. */
  function BarLines(ts: seq<string>, ns: seq<string>): (lines: seq<string>)
    requires |ts| == |ns|
    ensures |lines| == |ts| && forall i :: 0 <= i < |ts| ==> lines[i] == ts[i] + "|" + ns[i]
  {
    seq(|ts|, i requires 0 <= i < |ts| => ts[i] + "|" + ns[i])
  }

  lemma BarLinesCons(ts: seq<string>, ns: seq<string>)
    requires |ts| == |ns| > 0
    ensures BarLines(ts, ns) == [ts[0] + "|" + ns[0]] + BarLines(ts[1..], ns[1..])
  {
  }

  lemma BarLineFree(t: string, n: string, c: char)
    requires c !in t && c !in n && c != '|'
    ensures c !in t + "|" + n
  {
  }

  /** The file's lines are the `ticker|name` lines of the pairs, then the empty text after the
      last newline. */
  lemma {:induction false} PairLinesSplit(ts: seq<string>, ns: seq<string>)
    requires |ts| == |ns|
    requires forall i :: 0 <= i < |ts| ==> '\n' !in ts[i] && '\n' !in ns[i]
    ensures Split(PairLines(ts, ns), '\n') == BarLines(ts, ns) + [""]
    decreases |ts|
  {
    if ts == [] {
      assert PairLines(ts, ns) == "";
    } else {
      var line := ts[0] + "|" + ns[0];
      var rest := PairLines(ts[1..], ns[1..]);
      assert PairLines(ts, ns) == line + ['\n'] + rest;
      BarLineFree(ts[0], ns[0], '\n');
      SplitAt(line, '\n', rest);
      PairLinesSplit(ts[1..], ns[1..]);
      BarLinesCons(ts, ns);
    }
  }

  /** Reading back the `ticker|name` lines the way `AbstractScraper.__init__` does gives the
      tickers, as long as no fund name holds a newline (a name may hold a bar). */
  lemma PairLinesReadBack(ts: seq<string>, ns: seq<string>)
    requires |ts| == |ns|
    requires forall i :: 0 <= i < |ts| ==> '\n' !in ts[i] && '|' !in ts[i] && '\n' !in ns[i]
    ensures TickersOf(ReadRecords(PairLines(ts, ns))) == Ok(ts)
  {
    PairLinesSplit(ts, ns);
    var lines := BarLines(ts, ns);
    var records := seq(|ts|, i requires 0 <= i < |ts| => [ts[i]] + Split(ns[i], '|'));
    forall i | 0 <= i < |ts| ensures lines[i] != "" && Split(lines[i], '|') == records[i] {
      assert lines[i] == ts[i] + ['|'] + ns[i];
      SplitAt(ts[i], '|', ns[i]);
    }
    ReadRecordsLines(PairLines(ts, ns), lines, records);
    TickersOfFirsts(records, ts);
  }

  /** Records that each start with their ticker give back those tickers. */
  lemma TickersOfFirsts(records: seq<seq<string>>, ts: seq<string>)
    requires |records| == |ts|
    requires forall i :: 0 <= i < |ts| ==> records[i] != [] && records[i][0] == ts[i]
    ensures TickersOf(records) == Ok(ts)
  {
    assert TickersOf(records).Ok?;
    assert TickersOf(records).value == ts;
  }

  /** Text made of complete non-empty lines reads back as one record per line. */
  lemma ReadRecordsLines(text: string, lines: seq<string>, records: seq<seq<string>>)
    requires Split(text, '\n') == lines + [""]
    requires |records| == |lines|
    requires forall i :: 0 <= i < |lines| ==> lines[i] != "" && Split(lines[i], '|') == records[i]
    ensures ReadRecords(text) == records
  {
    assert (lines + [""])[..|lines|] == lines;
  }

  /** The ticker list file written without an error reads back as the tickers of all the
      pages, in order, when no fund name holds a newline. */
  lemma ExtractedReadBack(pages: seq<seq<NameCell>>)
    requires Extracted(pages).error.None?
    requires forall p, i :: 0 <= p < |pages| && 0 <= i < |pages[p]| ==> '\n' !in pages[p][i].name
    ensures AllTickers(pages).Ok?
    ensures TickersOf(ReadRecords(Extracted(pages).text)) == AllTickers(pages)
  {
    ExtractedAll(pages);
    AllTickersUpper(pages);
    var n := FirstUnencodable(AllTickers(pages).value, AllNames(pages));
    assert n == |AllTickers(pages).value|;
    assert AllTickers(pages).value[..n] == AllTickers(pages).value && AllNames(pages)[..n] == AllNames(pages);
    AllNamesSingleLine(pages);
    var ts := AllTickers(pages).value;
    forall i | 0 <= i < |ts| ensures '\n' !in ts[i] && '|' !in ts[i] {
      assert AllIn(ts[i], Uppers);
    }
    PairLinesReadBack(ts, AllNames(pages));
  }

  /** No name written holds a newline when no cell's text does. */
  lemma {:induction false} AllNamesSingleLine(pages: seq<seq<NameCell>>)
    requires forall p, i :: 0 <= p < |pages| && 0 <= i < |pages[p]| ==> '\n' !in pages[p][i].name
    ensures forall k :: 0 <= k < |AllNames(pages)| ==> '\n' !in AllNames(pages)[k]
    decreases |pages|
  {
    if pages != [] {
      var front := pages[..|pages| - 1];
      var cells := pages[|pages| - 1];
      assert forall p, i :: 0 <= p < |front| && 0 <= i < |front[p]| ==> front[p][i] == pages[p][i];
      AllNamesSingleLine(front);
      var fn := AllNames(front);
      assert AllNames(pages) == fn + PageNames(cells);
      forall k | |fn| <= k < |AllNames(pages)| ensures '\n' !in AllNames(pages)[k] {
        assert AllNames(pages)[k] == cells[k - |fn|].name;
      }
    }
  }
}
