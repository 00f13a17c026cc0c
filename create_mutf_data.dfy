/** The function versions of the Yahoo Finance scrapers and the MarketWatch ticker list in
    create_mutf_data.py: one fund page read into one record (`get_profile`, `get_risk`,
    `get_performance`), the ticker list built from the pages saved for the letters A to Z
    (`generate_marketwatch_tickers`), and a data file written one fund at a time
    (`generate_data_file`). Pages are given as the cell texts the BeautifulSoup queries return,
    keyed by ticker (or by letter); a page that is absent is a file that could not be opened. */
module CreateMutfData {
  import opened Wrappers
  import opened PyStrings
  import opened AbstractScraper
  import opened YfncKeyMappings
  import opened LabelRemap
  import opened YfncPages
  import opened TickerGenerator

  // ---------------------------------------------------------------------------------------
  // get_profile

  /** `raw_profile = {"ticker": tkr}`, then every title table merged in. */
  function SeededRaw(ticker: string, tables: RawMap): (r: RawMap)
    requires Valid(tables)
    ensures Valid(r) && r.m == map["ticker" := ticker] + tables.m
  {
    Update(Set(EmptyRaw, "ticker", ticker), tables)
  }

  /** `get_profile(tkr)`: the page must exist (IOError escapes) and its labels be ASCII
      (UnicodeEncodeError escapes); the record starts empty and every field, the ticker
      included, comes out of the prefix remap. */
  function ProfileOf(ticker: string, pages: map<string, seq<LabelTable>>): Result<Record> {
    if ticker !in pages then Err(IOError)
    else
      match ProfileRaw(pages[ticker])
      case Err(e) => Err(e)
      case Ok(tables) => Ok(Remapped(map[], SeededRaw(ticker, tables), ProfileKeymap, PercentAndNA))
  }

  method GetProfile(ticker: string, pages: map<string, seq<LabelTable>>) returns (res: Result<Record>)
    ensures res == ProfileOf(ticker, pages)
  {
    if ticker !in pages {
      return Err(IOError);
    }
    var tables := BuildProfileRaw(pages[ticker]);
    if tables.Err? {
      return Err(tables.error);
    }
    var raw := Update(Set(EmptyRaw, "ticker", ticker), tables.value);
    var selected := Remap(map[], raw, ProfileKeymap, PercentAndNA);
    return Ok(selected);
  }

  /** A profile is read exactly when its page exists and all its labels are ASCII; it then
      has only profile fields, all text, and always a ticker. */
  lemma ProfileOfSpec(ticker: string, pages: map<string, seq<LabelTable>>)
    ensures ProfileOf(ticker, pages).Ok? <==>
      ticker in pages && forall t :: 0 <= t < |pages[ticker]| ==> AsciiLabels(pages[ticker][t])
    ensures ProfileOf(ticker, pages).Err? ==>
      ProfileOf(ticker, pages).error == (if ticker in pages then UnicodeEncodeError else IOError)
    ensures ProfileOf(ticker, pages).Ok? ==>
      var rec := ProfileOf(ticker, pages).value;
      "ticker" in rec && FitsHeader(rec, ProfileFields) && AllText(rec)
  {
    if ticker in pages {
      ProfileRawOk(pages[ticker]);
      if ProfileRaw(pages[ticker]).Ok? {
        var raw := SeededRaw(ticker, ProfileRaw(pages[ticker]).value);
        var rec := Remapped(map[], raw, ProfileKeymap, PercentAndNA);
        ProfileTablesAgree();
        RemappedKeys(map[], raw, ProfileKeymap, PercentAndNA);
        forall k | k in rec ensures rec[k].Str? {
          RemappedValue(map[], raw, ProfileKeymap, PercentAndNA, k);
        }
        SeededTicker(ticker, ProfileRaw(pages[ticker]).value);
      }
    }
  }

  /** The seeded "ticker" field always matches the "ticker" entry of the keymap. */
  lemma SeededTicker(ticker: string, tables: RawMap)
    requires Valid(tables)
    ensures "ticker" in Remapped(map[], SeededRaw(ticker, tables), ProfileKeymap, PercentAndNA)
  {
    var raw := SeededRaw(ticker, tables);
    ProfileTablesAgree();
    assert ProfileKeymap[0] == ("ticker", "ticker");
    RemappedEntry(map[], raw, ProfileKeymap, PercentAndNA, 0);
    assert "ticker" in raw.order;
    var j :| 0 <= j < |raw.order| && raw.order[j] == "ticker";
    assert "ticker" <= raw.order[j];
  }

  /** The ticker field is the page's own ticker, cleaned like any profile value, unless a
      label of the page starts with "ticker"; a ticker of capitals is kept as it is. */
  lemma ProfileTicker(ticker: string, pages: map<string, seq<LabelTable>>)
    requires ProfileOf(ticker, pages).Ok?
    requires forall k :: k in ProfileRaw(pages[ticker]).value.m ==> !("ticker" <= k)
    ensures "ticker" in ProfileOf(ticker, pages).value
    ensures ProfileOf(ticker, pages).value["ticker"] == Unicode(Normalise(PercentAndNA, ticker))
    ensures '%' !in ticker && '/' !in ticker ==> ProfileOf(ticker, pages).value["ticker"] == Unicode(ticker)
  {
    var tables := ProfileRaw(pages[ticker]).value;
    var raw := SeededRaw(ticker, tables);
    SeededTicker(ticker, tables);
    ProfileTablesAgree();
    assert ProfileKeymap[0] == ("ticker", "ticker");
    RemappedEntry(map[], raw, ProfileKeymap, PercentAndNA, 0);
    var hit := LastMatch(raw.order, "ticker");
    var f := raw.order[hit.value];
    assert f in raw.m;
    assert f == "ticker" && raw.m[f] == ticker;
    if '%' !in ticker && '/' !in ticker {
      ReplaceAbsent(ticker, "%", "", '%');
      ReplaceAbsent(ticker, "N/A", "", '/');
    }
  }

  // ---------------------------------------------------------------------------------------
  // get_risk

  /** `get_risk(tkr)`: the page must exist; the risk tables are read as by the Yahoo scraper
      (the assert on the cell count escapes) and the record is seeded with the ticker. */
  function RiskOf(ticker: string, pages: map<string, seq<IntervalTable>>): Result<Record> {
    if ticker !in pages then Err(IOError) else RiskRecord(ticker, pages[ticker])
  }

  method GetRisk(ticker: string, pages: map<string, seq<IntervalTable>>) returns (res: Result<Record>)
    ensures res == RiskOf(ticker, pages)
  {
    if ticker !in pages {
      return Err(IOError);
    }
    res := ScrapeRisk(ticker, pages[ticker]);
  }

  /** A risk record is read exactly when its page exists and every table holds whole
      triples; it then keeps the page's ticker and has only risk fields, all text. */
  lemma RiskOfSpec(ticker: string, pages: map<string, seq<IntervalTable>>)
    ensures RiskOf(ticker, pages).Ok? <==>
      ticker in pages && forall t :: 0 <= t < |pages[ticker]| ==> Triples(pages[ticker][t])
    ensures RiskOf(ticker, pages).Err? ==>
      RiskOf(ticker, pages).error == (if ticker in pages then AssertionError else IOError)
    ensures RiskOf(ticker, pages).Ok? ==>
      var rec := RiskOf(ticker, pages).value;
      "ticker" in rec && rec["ticker"] == Str(ticker) && FitsHeader(rec, RiskFields) && AllText(rec)
  {
    if ticker in pages {
      RiskRawOk(pages[ticker]);
      if RiskRaw(pages[ticker]).Ok? {
        RiskRecordFits(ticker, pages[ticker]);
      }
    }
  }

  /** Every other risk value is a page value with "N/A" removed and every "%" kept. */
  lemma RiskOfValue(ticker: string, pages: map<string, seq<IntervalTable>>, k: string)
    requires RiskOf(ticker, pages).Ok? && k in RiskOf(ticker, pages).value && k != "ticker"
    ensures exists f ::
      (f in RiskRaw(pages[ticker]).value.m &&
       RiskOf(ticker, pages).value[k] == Unicode(ReplaceAll(RiskRaw(pages[ticker]).value.m[f], "N/A", "")) &&
       ('%' in RiskOf(ticker, pages).value[k].s <==> '%' in RiskRaw(pages[ticker]).value.m[f]))
  {
    var raw := RiskRaw(pages[ticker]).value;
    assert RiskOf(ticker, pages).value == Remapped(Seed(ticker), raw, RiskKeymap, NAOnly);
    NAOnlyValue(Seed(ticker), raw, RiskKeymap, k);
  }

  /** A remapped key absent from the seed holds a raw value with "N/A" removed. */
  lemma NAOnlyValue(seed: Record, raw: RawMap, km: Keymap, k: string)
    requires Valid(raw) && k in Remapped(seed, raw, km, NAOnly) && k !in seed
    ensures var v := Remapped(seed, raw, km, NAOnly)[k];
      exists f :: f in raw.m && v == Unicode(ReplaceAll(raw.m[f], "N/A", "")) && ('%' in v.s <==> '%' in raw.m[f])
  {
    RemappedValue(seed, raw, km, NAOnly, k);
    var v := Remapped(seed, raw, km, NAOnly)[k];
    var f :| f in raw.m && v == Unicode(Normalise(NAOnly, raw.m[f]));
    RiskKeepsPercent(raw.m[f]);
  }

  // ---------------------------------------------------------------------------------------
  // get_performance

  /** `get_performance(tkr)`: unlike the Yahoo scraper there is no guard around
      `perf_tables[1]`, so a page with fewer than two outline tables raises IndexError. */
  function PerformanceOf(ticker: string, pages: map<string, seq<LabelTable>>): Result<Record> {
    if ticker !in pages then Err(IOError)
    else if |pages[ticker]| < 2 then Err(IndexError)
    else Ok(PerformanceRecord(ticker, pages[ticker]))
  }

  method GetPerformance(ticker: string, pages: map<string, seq<LabelTable>>) returns (res: Result<Record>)
    ensures res == PerformanceOf(ticker, pages)
  {
    if ticker !in pages {
      return Err(IOError);
    }
    var tables := pages[ticker];
    if |tables| < 2 {
      return Err(IndexError);
    }
    var avgReturns := tables[1];
    var raw := FromZip(avgReturns.labels, avgReturns.values);
    var selected := Remap(Seed(ticker), raw, PerformanceKeymap, PercentAndNA);
    return Ok(selected);
  }

  /** A performance record is read exactly when the page exists and has its second table;
      it keeps the ticker, has only performance fields, and no value but the ticker carries
      a "%". */
  lemma PerformanceOfSpec(ticker: string, pages: map<string, seq<LabelTable>>)
    ensures PerformanceOf(ticker, pages).Ok? <==> ticker in pages && |pages[ticker]| >= 2
    ensures PerformanceOf(ticker, pages).Err? ==>
      PerformanceOf(ticker, pages).error == (if ticker in pages then IndexError else IOError)
    ensures PerformanceOf(ticker, pages).Ok? ==>
      var rec := PerformanceOf(ticker, pages).value;
      "ticker" in rec && rec["ticker"] == Str(ticker) && FitsHeader(rec, PerformanceFields) &&
      AllText(rec) && forall k :: k in rec && k != "ticker" ==> '%' !in rec[k].s
  {
    if ticker in pages && |pages[ticker]| >= 2 {
      var page := pages[ticker];
      var rec := PerformanceRecord(ticker, page);
      PerformanceRecordFits(ticker, page);
      forall k | k in rec && k != "ticker" ensures '%' !in rec[k].s {
        var raw := PerformanceRaw(page);
        RemappedValue(Seed(ticker), raw, PerformanceKeymap, PercentAndNA, k);
        var f :| f in raw.m && rec[k] == Unicode(Normalise(PercentAndNA, raw.m[f]));
        NormalisedHasNoPercent(raw.m[f]);
      }
    }
  }

  /** R1, R3, R5 and R10 are filled exactly when a label of the second table, paired with a
      value, starts with "1-Year", "3-Year", "5-Year" or "10-Year"; the value is then that
      row's, cleaned of "%" and "N/A". */
  lemma PerformanceReturn(ticker: string, pages: map<string, seq<LabelTable>>, i: nat)
    requires PerformanceOf(ticker, pages).Ok? && i < |PerformanceKeymap|
    ensures var rec, t := PerformanceOf(ticker, pages).value, pages[ticker][1];
      var n := Min(|t.labels|, |t.values|);
      (PerformanceKeymap[i].0 in rec <==> exists j :: 0 <= j < n && PerformanceKeymap[i].1 <= t.labels[j]) &&
      (PerformanceKeymap[i].0 in rec ==>
        exists f :: f in FromZip(t.labels, t.values).m && PerformanceKeymap[i].1 <= f &&
          rec[PerformanceKeymap[i].0] == Unicode(Normalise(PercentAndNA, FromZip(t.labels, t.values).m[f])))
  {
    var t := pages[ticker][1];
    PerformanceTablesAgree();
    assert Keys(PerformanceKeymap)[i] == PerformanceKeymap[i].0;
    assert PerformanceOf(ticker, pages).value ==
      Remapped(Seed(ticker), FromZip(t.labels, t.values), PerformanceKeymap, PercentAndNA);
    ZippedEntry(Seed(ticker), t.labels, t.values, PerformanceKeymap, PercentAndNA, i);
  }

  /** A keymap key absent from the seed is filled, from a zipped table, exactly when some
      paired label starts with its prefix. */
  lemma ZippedEntry(seed: Record, labels: seq<string>, values: seq<string>, km: Keymap, norm: Norm, i: nat)
    requires Distinct(Keys(km)) && i < |km| && km[i].0 !in seed
    ensures var raw := FromZip(labels, values);
      var rec, n, key, prefix := Remapped(seed, raw, km, norm), Min(|labels|, |values|), km[i].0, km[i].1;
      (key in rec <==> exists j :: 0 <= j < n && prefix <= labels[j]) &&
      (key in rec ==> exists f :: f in raw.m && prefix <= f && rec[key] == Unicode(Normalise(norm, raw.m[f])))
  {
    var raw := FromZip(labels, values);
    var n := Min(|labels|, |values|);
    var prefix := km[i].1;
    RemappedEntry(seed, raw, km, norm, i);
    var hit := LastMatch(raw.order, prefix);
    if hit.Some? {
      var f := raw.order[hit.value];
      assert f in raw.m;
      assert f in labels[..n];
      var j :| 0 <= j < n && labels[..n][j] == f;
      assert prefix <= labels[j];
    }
    if exists j :: 0 <= j < n && prefix <= labels[j] {
      var j :| 0 <= j < n && prefix <= labels[j];
      assert labels[j] in labels[..n];
      assert labels[j] in raw.order;
      var q :| 0 <= q < |raw.order| && raw.order[q] == labels[j];
      assert prefix <= raw.order[q];
    }
  }

  // ---------------------------------------------------------------------------------------
  // generate_marketwatch_tickers

  /** `string.ascii_uppercase`: one saved page per start letter, read in this order. */
  const Letters: string := "ABCDEFGHIJKLMNOPQRSTUVWXYZ"

  /** The position of the first letter whose page is missing, or 26. */
  function FirstMissing(pages: map<char, seq<NameCell>>): (n: nat)
    ensures n <= |Letters|
    ensures forall i :: 0 <= i < n ==> Letters[i] in pages
    ensures n < |Letters| ==> Letters[n] !in pages
  {
    MissingFrom(pages, 0)
  }

  function MissingFrom(pages: map<char, seq<NameCell>>, i: nat): (n: nat)
    requires i <= |Letters| && forall j :: 0 <= j < i ==> Letters[j] in pages
    ensures i <= n <= |Letters|
    ensures forall j :: 0 <= j < n ==> Letters[j] in pages
    ensures n < |Letters| ==> Letters[n] !in pages
    decreases |Letters| - i
  {
    if i == |Letters| || Letters[i] !in pages then i else MissingFrom(pages, i + 1)
  }

  /** The pages of the first `n` letters, in letter order. */
  function LetterPages(pages: map<char, seq<NameCell>>, n: nat): (r: seq<seq<NameCell>>)
    requires n <= FirstMissing(pages)
    ensures |r| == n && forall i :: 0 <= i < n ==> r[i] == pages[Letters[i]]
  {
    seq(n, i requires 0 <= i < n => pages[Letters[i]])
  }

  /** `generate_marketwatch_tickers`: the letter pages in turn; opening a missing page
      raises IOError after the earlier pages' lines are written. */
  function Generated(pages: map<char, seq<NameCell>>): Written {
    var n := FirstMissing(pages);
    var w := Extracted(LetterPages(pages, n));
    if w.error.None? && n < |Letters| then Written(w.text, Some(IOError)) else w
  }

  method GenerateMarketwatchTickers(pages: map<char, seq<NameCell>>) returns (written: Written)
    ensures written == Generated(pages)
  {
    var text := "";
    var i := 0;
    while i < |Letters|
      invariant i <= FirstMissing(pages)
      invariant Extracted(LetterPages(pages, i)) == Written(text, None)
    {
      var startletter := Letters[i];
      if startletter !in pages {
        return Written(text, Some(IOError));
      }
      var step := WritePage(text, pages[startletter]);
      LetterStep(pages, i, text);
      if step.error.Some? {
        LetterFails(pages, i + 1);
        return step;
      }
      text := step.text;
      i := i + 1;
    }
    return Written(text, None);
  }

  /** The page of letter `i` extends what the letters before it wrote. */
  lemma LetterStep(pages: map<char, seq<NameCell>>, i: nat, text: string)
    requires i < FirstMissing(pages) && Extracted(LetterPages(pages, i)) == Written(text, None)
    ensures Extracted(LetterPages(pages, i + 1)) == PageStep(text, pages[Letters[i]])
  {
    assert LetterPages(pages, i + 1)[..i] == LetterPages(pages, i);
  }

  /** Once the letters before `n` have raised, the whole run ends with that exception. */
  lemma LetterFails(pages: map<char, seq<NameCell>>, n: nat)
    requires n <= FirstMissing(pages) && Extracted(LetterPages(pages, n)).error.Some?
    ensures Generated(pages) == Extracted(LetterPages(pages, n))
  {
    var all := LetterPages(pages, FirstMissing(pages));
    assert all[..n] == LetterPages(pages, n);
    ExtractedErrorSticks(all, n);
  }


  /** The file is complete exactly when every letter has a page, every page yields its
      tickers and every line can be encoded; the run stops with IOError exactly when a
      letter's page is missing and the pages before it are written in full. */
  lemma GeneratedSpec(pages: map<char, seq<NameCell>>)
    ensures Generated(pages).error.None? <==>
      (forall i :: 0 <= i < |Letters| ==> Letters[i] in pages) &&
      AllTickers(LetterPages(pages, |Letters|)).Ok? &&
      LinesEncodable(AllTickers(LetterPages(pages, |Letters|)).value, AllNames(LetterPages(pages, |Letters|)))
    ensures var ps := LetterPages(pages, FirstMissing(pages));
      Generated(pages).error == Some(IOError) <==>
        FirstMissing(pages) < |Letters| && AllTickers(ps).Ok? && LinesEncodable(AllTickers(ps).value, AllNames(ps))
    ensures Generated(pages).error.Some? ==>
      Generated(pages).error.value in {IOError, UnicodeEncodeError, AttributeError, KeyError, IndexError}
  {
    var n := FirstMissing(pages);
    var ps := LetterPages(pages, n);
    ExtractedComplete(ps);
    if Extracted(ps).error.Some? {
      ExtractedAll(ps);
      if AllTickers(ps).Err? {
        AllTickersErrors(ps);
      }
    }
  }

  /** A page's ticker list only ever raises AttributeError, KeyError or IndexError. */
  lemma {:induction false} AllTickersErrors(pages: seq<seq<NameCell>>)
    requires AllTickers(pages).Err?
    ensures AllTickers(pages).error in {AttributeError, KeyError, IndexError}
    decreases |pages|
  {
    if AllTickers(pages[..|pages| - 1]).Err? {
      AllTickersErrors(pages[..|pages| - 1]);
    } else {
      PageTickersFails(pages[|pages| - 1]);
    }
  }

  /** A complete ticker list reads back as the tickers of the pages A to Z in order, when no
      fund name holds a newline. */
  lemma GeneratedReadBack(pages: map<char, seq<NameCell>>)
    requires Generated(pages).error.None?
    requires forall c, i :: c in pages && 0 <= i < |pages[c]| ==> '\n' !in pages[c][i].name
    ensures FirstMissing(pages) == |Letters|
    ensures TickersOf(ReadRecords(Generated(pages).text)) == AllTickers(LetterPages(pages, |Letters|))
  {
    var ps: seq<seq<NameCell>> := LetterPages(pages, FirstMissing(pages));
    forall p: nat, i: nat | p < |ps| && i < |ps[p]| ensures '\n' !in ps[p][i].name {
      assert ps[p] == pages[Letters[p]];
    }
    ExtractedReadBack(ps);
  }

  // ---------------------------------------------------------------------------------------
  // generate_data_file

  /** A record generator such as `get_profile`; an exception it raises escapes. */
  type Generator = string -> Result<Record>

  /** The rows a data file holds, header first, and the exception that stopped it. */
  datatype DataFile = DataFile(rows: seq<seq<Cell>>, error: Option<PyError>)

  /** `generate_data_file`: the header, then the record of each fund in turn; a record with
      a key outside the header makes `DictWriter.writerow` raise ValueError, and one with a
      unicode text outside ASCII UnicodeEncodeError. */
  function DataFileOf(fields: seq<string>, funds: seq<string>, gen: Generator): DataFile
    decreases |funds|
  {
    if funds == [] then DataFile([HeaderRow(fields)], None)
    else
      var front := DataFileOf(fields, funds[..|funds| - 1], gen);
      if front.error.Some? then front
      else
        match gen(funds[|funds| - 1])
        case Err(e) => DataFile(front.rows, Some(e))
        case Ok(rec) =>
          if Writable(rec, fields) then DataFile(front.rows + [RowOf(fields, rec)], None)
          else DataFile(front.rows, Some(WriteError(rec, fields)))
  }

  method GenerateDataFile(fields: seq<string>, funds: seq<string>, gen: Generator) returns (file: DataFile)
    ensures file == DataFileOf(fields, funds, gen)
  {
    var rows := [HeaderRow(fields)];
    var i := 0;
    while i < |funds|
      invariant 0 <= i <= |funds|
      invariant DataFileOf(fields, funds[..i], gen) == DataFile(rows, None)
    {
      assert funds[..i + 1][..i] == funds[..i];
      var p := gen(funds[i]);
      if p.Err? {
        DataFileErrorSticks(fields, funds, gen, i + 1);
        return DataFile(rows, Some(p.error));
      }
      var rec := p.value;
      if !(forall k | k in rec :: k in fields) {
        DataFileErrorSticks(fields, funds, gen, i + 1);
        return DataFile(rows, Some(ValueError));
      }
      if !(forall k | k in rec && rec[k].Str? && rec[k].unicode :: IsAscii(rec[k].s)) {
        DataFileErrorSticks(fields, funds, gen, i + 1);
        return DataFile(rows, Some(UnicodeEncodeError));
      }
      rows := rows + [RowOf(fields, p.value)];
      i := i + 1;
    }
    assert funds[..i] == funds;
    return DataFile(rows, None);
  }

  lemma {:induction false} DataFileErrorSticks(fields: seq<string>, funds: seq<string>, gen: Generator, n: nat)
    requires n <= |funds| && DataFileOf(fields, funds[..n], gen).error.Some?
    ensures DataFileOf(fields, funds, gen) == DataFileOf(fields, funds[..n], gen)
    decreases |funds| - n
  {
    if n < |funds| {
      assert funds[..n + 1][..n] == funds[..n];
      DataFileErrorSticks(fields, funds, gen, n + 1);
    } else {
      assert funds[..n] == funds;
    }
  }

  /** The header comes first, then one row per fund in list order; the file is complete
      exactly when it has a row for every fund, and otherwise the fund after the last row is
      the one whose record raised or could not be written. */
  lemma {:induction false} DataFileSpec(fields: seq<string>, funds: seq<string>, gen: Generator)
    ensures var f := DataFileOf(fields, funds, gen);
      1 <= |f.rows| <= |funds| + 1 && f.rows[0] == HeaderRow(fields)
    ensures var f := DataFileOf(fields, funds, gen);
      forall i :: 0 <= i < |f.rows| - 1 ==>
        gen(funds[i]).Ok? && Writable(gen(funds[i]).value, fields) &&
        f.rows[i + 1] == RowOf(fields, gen(funds[i]).value)
    ensures var f := DataFileOf(fields, funds, gen);
      f.error.None? <==> |f.rows| == |funds| + 1
    ensures var f := DataFileOf(fields, funds, gen);
      f.error.Some? ==>
        gen(funds[|f.rows| - 1]) == Err(f.error.value) ||
        (gen(funds[|f.rows| - 1]).Ok? && !Writable(gen(funds[|f.rows| - 1]).value, fields) &&
         f.error.value == WriteError(gen(funds[|f.rows| - 1]).value, fields))
    decreases |funds|
  {
    if funds != [] {
      var front := funds[..|funds| - 1];
      DataFileSpec(fields, front, gen);
      assert forall i :: 0 <= i < |front| ==> front[i] == funds[i];
    }
  }

  /** When every fund's record is produced and can be written, the file holds exactly the
      table `writecsv` writes for the list of those records. */
  lemma DataFileComplete(fields: seq<string>, funds: seq<string>, gen: Generator)
    requires forall i :: 0 <= i < |funds| ==> gen(funds[i]).Ok? && Writable(gen(funds[i]).value, fields)
    ensures DataFileOf(fields, funds, gen).error.None?
    ensures CsvTable(fields, seq(|funds|, i requires 0 <= i < |funds| => gen(funds[i]).value)) ==
      Ok(DataFileOf(fields, funds, gen).rows)
  {
    DataFileSpec(fields, funds, gen);
    var f := DataFileOf(fields, funds, gen);
    var records := seq(|funds|, i requires 0 <= i < |funds| => gen(funds[i]).value);
    var table := CsvTable(fields, records);
    assert |f.rows| == |funds| + 1;
    assert table.value == f.rows by {
      forall k | 1 <= k < |f.rows| ensures table.value[k] == f.rows[k] {
        assert table.value[(k - 1) + 1] == RowOf(fields, records[k - 1]);
      }
    }
  }

  /** For funds whose pages all exist with ASCII labels, the profile file is complete
      exactly when every profile's texts are ASCII, and it then holds one row per fund, in
      list order, after the header; otherwise it stops with UnicodeEncodeError. */
  lemma ProfileDataFile(funds: seq<string>, pages: map<string, seq<LabelTable>>)
    requires forall i :: 0 <= i < |funds| ==> funds[i] in pages
    requires forall i, t :: 0 <= i < |funds| && 0 <= t < |pages[funds[i]]| ==> AsciiLabels(pages[funds[i]][t])
    ensures var f := DataFileOf(ProfileFields, funds, t => ProfileOf(t, pages));
      f.error.None? <==>
        forall i :: 0 <= i < |funds| ==> ProfileOf(funds[i], pages).Ok? && Encodable(ProfileOf(funds[i], pages).value)
    ensures var f := DataFileOf(ProfileFields, funds, t => ProfileOf(t, pages));
      (f.error.None? ==> |f.rows| == |funds| + 1) && (f.error.Some? ==> f.error.value == UnicodeEncodeError)
  {
    var gen: Generator := t => ProfileOf(t, pages);
    forall i | 0 <= i < |funds| ensures gen(funds[i]).Ok? && FitsHeader(gen(funds[i]).value, ProfileFields) {
      ProfileOfSpec(funds[i], pages);
    }
    DataFileSpec(ProfileFields, funds, gen);
    var f := DataFileOf(ProfileFields, funds, gen);
    if f.error.Some? {
      var k := |f.rows| - 1;
      assert gen(funds[k]).Ok? && FitsHeader(gen(funds[k]).value, ProfileFields);
      assert !Encodable(ProfileOf(funds[k], pages).value);
    }
  }
}
