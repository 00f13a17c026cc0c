/** `GfncFundpageScraper.get_performance` (src/gfnc_fundpage_scraper.py:34-78, repeated as
    `GfncScraper.get_performance` in src/gfnc_scraper.py:220-267): for each ticker, read its
    saved Google Finance page, search the performance text for the return of each of eight
    periods, and write one record per ticker. A saved page is given as what
    `soup.body.div(class_="subsector")` reaches; a ticker without a page stands for the
    IOError that `open` raises outside the `try`, which ends the run. */
module GfncFundpageScraper {
  import opened Wrappers
  import opened PyStrings
  import opened Decimal
  import opened AbstractScraper
  import opened Patterns

  type Files = map<string, seq<seq<Cell>>>

  /** The texts of the "subsector" divisions of a saved page, in page order. */
  type Subsectors = seq<string>

  /** A saved page as `soup.body.div(class_="subsector")` reaches it. `NoBody`: the page has no
      `body`, and `None.div` raises AttributeError. `NoDiv`: the body holds no `div`, so
      `body.div` is None and calling it raises TypeError. `Divs`: the texts of the "subsector"
      divisions inside the first `div` of the body. Only IndexError is caught, so the first
      two escape and end the run. */
  datatype FundPage = NoBody | NoDiv | Divs(subsectors: Subsectors)

  /** The periods Google Finance reports a return for, as labelled on the page. */
  const Durations: seq<string> :=
    ["1 day", "1 week", "4 week", "3 month", "YTD", "1 year", "3 years", "5 years"]

  /** The header of the output file: the ticker, then one column per period. */
  const PerformanceFields: seq<string> := ["ticker"] + Durations

  /** The header names nine distinct columns; "ticker" is not a period. */
  lemma PerformanceFieldsDistinct()
    ensures |PerformanceFields| == 9 && "ticker" !in Durations
    ensures forall i, j :: 0 <= i < j < |PerformanceFields| ==> PerformanceFields[i] != PerformanceFields[j]
  {
  }

  /** `.text.replace("\n", " ").encode('ascii', errors='ignore')`: the performance text as one
      line of ASCII. */
  function PerformanceText(info: string): (t: string)
    ensures IsAscii(t) && '\n' !in t
  {
    ReplaceCharGone(info, '\n', " ");
    DropNonAsciiMembers(ReplaceAll(info, "\n", " "));
    var t := DropNonAscii(ReplaceAll(info, "\n", " "));
    assert forall i :: 0 <= i < |t| ==> t[i] in t;
    t
  }

  /** The dict comprehension over the periods: each period whose pattern is found maps to
      the return it captures; the others are left out. */
  function FundData(text: string): (r: Record)
    ensures AllText(r) && forall d :: d in r ==> d in Durations
  {
    map d | d in Durations && ReturnSearch(text, d).Some? :: Str(ReturnSearch(text, d).value)
  }

  /** The record of one ticker: the returns found on its page (none when the page has fewer
      than two subsector divisions, the IndexError being caught), then its ticker. */
  function PerformanceRecord(ticker: string, page: Subsectors): (r: Record)
    ensures AllText(r)
  {
    var data := if |page| < 2 then map[] else FundData(PerformanceText(page[1]));
    data["ticker" := Str(ticker)]
  }

  /** The record holds the ticker and no key outside the header. Without a second subsector
      division it holds the ticker only. Otherwise a period is present exactly when its
      pattern matches somewhere in the performance text, and then its value is the return of
      the leftmost match, a signed decimal that `float` accepts. */
  lemma PerformanceRecordSpec(ticker: string, page: Subsectors)
    ensures var r := PerformanceRecord(ticker, page);
      r["ticker"] == Str(ticker) && FitsHeader(r, PerformanceFields) && Encodable(r) &&
      (|page| < 2 ==> r.Keys == {"ticker"})
    ensures |page| >= 2 ==>
      var r, t := PerformanceRecord(ticker, page), PerformanceText(page[1]);
      forall d :: d in Durations ==>
        (d in r <==> exists i, w :: 0 <= i <= |t| && ReturnMatchesAt(t, i, d, w)) &&
        (d in r ==> FirstReturnMatch(t, d, r[d].s) && IsReturnText(r[d].s) && Float(r[d].s).Ok?)
  {
    PerformanceFieldsDistinct();
    var r := PerformanceRecord(ticker, page);
    if |page| >= 2 {
      var t := PerformanceText(page[1]);
      forall d | d in Durations
        ensures d in r <==> exists i, w :: 0 <= i <= |t| && ReturnMatchesAt(t, i, d, w)
        ensures d in r ==> FirstReturnMatch(t, d, r[d].s) && IsReturnText(r[d].s) && Float(r[d].s).Ok?
      {
        ReturnSearchSpec(t, d);
        if d in r {
          assert r[d] == Str(ReturnSearch(t, d).value);
          ReturnSearchIsReturn(t, d);
          ReturnIsDecimal(r[d].s);
        }
      }
    }
    PerformanceRecordEncodable(ticker, page);
  }

  /** The returns are ASCII, so the writer can encode the record. */
  lemma PerformanceRecordEncodable(ticker: string, page: Subsectors)
    ensures Encodable(PerformanceRecord(ticker, page))
  {
    var r := PerformanceRecord(ticker, page);
    if |page| >= 2 {
      var t := PerformanceText(page[1]);
      forall d | d in r && d != "ticker" ensures r[d].Str? && IsAscii(r[d].s) {
        assert d in Durations && ReturnSearch(t, d).Some?;
        ReturnSearchIsReturn(t, d);
        SignedTextsAscii(ReturnSearch(t, d).value);
      }
    }
  }

  /** The row written for a ticker: the ticker first, then for each period `""` when no
      return was found, or else a return that `float` accepts. */
  lemma PerformanceRowCells(ticker: string, page: Subsectors)
    ensures var row := RowOf(PerformanceFields, PerformanceRecord(ticker, page));
      |row| == 9 && row[0] == Str(ticker) &&
      forall j :: 1 <= j < 9 ==>
        row[j].Str? && (row[j] == Str("") || (IsReturnText(row[j].s) && Float(row[j].s).Ok?))
  {
    PerformanceRecordSpec(ticker, page);
    var r := PerformanceRecord(ticker, page);
    forall j | 1 <= j < 9
      ensures var c := RowOf(PerformanceFields, r)[j];
        c.Str? && (c == Str("") || (IsReturnText(c.s) && Float(c.s).Ok?))
    {
      assert PerformanceFields[j] == Durations[j - 1];
      if |page| < 2 {
        assert PerformanceFields[j] !in r;
      }
    }
  }

  // ---------------------------------------------------------------------------------------
  // The run

  /** The step of one ticker: the record of its page, or the AttributeError or TypeError of a
      page without a body or without a `div` in it. */
  function PerformanceStep(ticker: string, page: FundPage): (r: Result<Record>)
    ensures r.Ok? <==> page.Divs?
    ensures r.Err? ==> r.error == (if page.NoBody? then AttributeError else TypeError)
  {
    match page
    case NoBody => Err(AttributeError)
    case NoDiv => Err(TypeError)
    case Divs(subsectors) => Ok(PerformanceRecord(ticker, subsectors))
  }

  /** What one ticker contributes: its step, or the IOError of a missing page. */
  function PerformanceRows(pages: map<string, FundPage>): TickerRow {
    t => if t in pages then Some(PerformanceStep(t, pages[t])) else Some(Err(IOError))
  }

  /** `get_performance(outputfile)`: the records in ticker order, written under the header. */
  function PerformanceRun(tickers: seq<string>, pages: map<string, FundPage>, output: string)
    : Result<Files>
  {
    match Collected(tickers, PerformanceRows(pages))
    case Err(e) => Err(e)
    case Ok(list) =>
      match CsvTable(PerformanceFields, list)
      case Err(e) => Err(e)
      case Ok(table) => Ok(map[output := table])
  }

  /** The scraping step for one saved page. */
  method ScrapePerformance(ticker: string, page: FundPage) returns (res: Result<Record>)
    ensures res == PerformanceStep(ticker, page)
  {
    if page.NoBody? {
      return Err(AttributeError);
    }
    if page.NoDiv? {
      return Err(TypeError);
    }
    var fundData: Record := map[];
    if 2 <= |page.subsectors| {
      var info := PerformanceText(page.subsectors[1]);
      fundData := FundData(info);
    }
    return Ok(fundData["ticker" := Str(ticker)]);
  }

  /** The ticker loop of `get_performance`: stops at the first ticker whose page is missing
      or raises. */
  method CollectPerformance(tickers: seq<string>, pages: map<string, FundPage>)
    returns (res: Result<seq<Record>>)
    ensures res == Collected(tickers, PerformanceRows(pages))
  {
    res := Collect(tickers, PerformanceRows(pages));
  }

  method GetPerformance(tickers: seq<string>, pages: map<string, FundPage>, output: string)
    returns (res: Result<Files>)
    ensures res == PerformanceRun(tickers, pages, output)
  {
    var performanceList := CollectPerformance(tickers, pages);
    if performanceList.Err? {
      return Err(performanceList.error);
    }
    var table := WriteCsv(PerformanceFields, performanceList.value);
    if table.Err? {
      return Err(table.error);
    }
    return Ok(map[output := table.value]);
  }

  /** The run completes exactly when every ticker has a saved page with a body and a `div`
      in it; it then writes the header and one row per ticker, in ticker order, each row the
      record scraped from that ticker's page. The returns are ASCII, so the writer never
      refuses a record. A failing run raises IOError, AttributeError or TypeError. */
  lemma PerformanceRunSpec(tickers: seq<string>, pages: map<string, FundPage>, output: string)
    ensures PerformanceRun(tickers, pages, output).Ok? <==>
      forall i :: 0 <= i < |tickers| ==> tickers[i] in pages && pages[tickers[i]].Divs?
    ensures PerformanceRun(tickers, pages, output).Err? ==>
      PerformanceRun(tickers, pages, output).error in {IOError, AttributeError, TypeError}
    ensures PerformanceRun(tickers, pages, output).Ok? ==>
      var files := PerformanceRun(tickers, pages, output).value;
      files.Keys == {output} && |files[output]| == |tickers| + 1 &&
      files[output][0] == HeaderRow(PerformanceFields) &&
      forall i :: 0 <= i < |tickers| ==>
        files[output][i + 1] == RowOf(PerformanceFields, PerformanceRecord(tickers[i], pages[tickers[i]].subsectors))
  {
    PerformanceCollected(tickers, pages);
  }

  /** The ticker loop gives one record per ticker, in ticker order, exactly when every ticker
      has a saved page with a body and a `div` in it; each record is ASCII and carries only
      output fields. */
  lemma PerformanceCollected(tickers: seq<string>, pages: map<string, FundPage>)
    ensures Collected(tickers, PerformanceRows(pages)).Ok? <==>
      forall i :: 0 <= i < |tickers| ==> tickers[i] in pages && pages[tickers[i]].Divs?
    ensures Collected(tickers, PerformanceRows(pages)).Err? ==>
      Collected(tickers, PerformanceRows(pages)).error in {IOError, AttributeError, TypeError}
    ensures Collected(tickers, PerformanceRows(pages)).Ok? ==>
      var list := Collected(tickers, PerformanceRows(pages)).value;
      |list| == |tickers| &&
      forall i :: 0 <= i < |tickers| ==>
        list[i] == PerformanceRecord(tickers[i], pages[tickers[i]].subsectors)
        && Writable(list[i], PerformanceFields)
  {
    var row := PerformanceRows(pages);
    CollectedRows(tickers, row);
    if Collected(tickers, row).Ok? {
      assert forall i :: 0 <= i < |tickers| ==> tickers[i] in pages && pages[tickers[i]].Divs? by {
        forall i | 0 <= i < |tickers| ensures tickers[i] in pages && pages[tickers[i]].Divs? {
          assert !Escapes(row, tickers[i]);
        }
      }
      KeptAll(tickers, row);
      var list := Collected(tickers, row).value;
      forall i | 0 <= i < |list|
        ensures Writable(list[i], PerformanceFields)
        ensures list[i] == PerformanceRecord(tickers[i], pages[tickers[i]].subsectors)
      {
        assert row(tickers[i]) == Some(Ok(list[i]));
        PerformanceRecordSpec(tickers[i], pages[tickers[i]].subsectors);
      }
    } else {
      var i :| 0 <= i < |tickers| && row(tickers[i]) == Some(Err(Collected(tickers, row).error));
      assert !(tickers[i] in pages && pages[tickers[i]].Divs?);
    }
  }
}
