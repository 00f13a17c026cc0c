/** The three scraping runs of `YfncFundpageScraper` (src/yfnc_fundpage_scraper.py:62-237):
    for each ticker, read its saved page, build its record, and write the records as a
    pipe-delimited file; profiles and risk statistics are then standardised into a second
    file. The saved pages are given as maps from ticker to page content; a ticker without a
    page stands for the IOError the scraper catches. The files written are returned as a map
    from path to rows. */
module YfncFundpageScraper {
  import opened Wrappers
  import opened AbstractScraper
  import opened YfncKeyMappings
  import opened LabelRemap
  import opened YfncStandardise
  import opened YfncPages

  type Files = map<string, seq<seq<Cell>>>

  /** The suffix `insert_suffix` adds to the intermediate, unstandardised file. */
  const UnstdSuffix: string := "__UNSTD__"

  /** `range(lo, hi)`. */
  function Range(lo: nat, hi: nat): (r: seq<nat>)
    ensures |r| == if lo <= hi then hi - lo else 0
    ensures forall i :: 0 <= i < |r| ==> r[i] == lo + i
    decreases hi - lo
  {
    if lo < hi then [lo] + Range(lo + 1, hi) else []
  }

  /** The risk columns standardised: `range(1, len(risk_fields))`, every column but the
      ticker. */
  const RiskColumns: seq<nat> := Range(1, |RiskFields|)

  lemma RiskColumnsShape()
    ensures |RiskColumns| == 30 && DistinctColumns(RiskColumns)
    ensures forall i :: 0 <= i < |RiskColumns| ==> 1 <= RiskColumns[i] < |RiskFields|
    ensures forall j :: 1 <= j < |RiskFields| ==> j in RiskColumns && 0 !in RiskColumns
  {
    RiskTablesAgree();
    forall j | 1 <= j < |RiskFields| ensures j in RiskColumns {
      assert RiskColumns[j - 1] == j;
    }
  }

  // ---------------------------------------------------------------------------------------
  // What one ticker contributes

  function ProfileRows(pages: map<string, seq<LabelTable>>): TickerRow {
    t => if t in pages then Some(ProfileRecord(t, pages[t])) else None
  }

  function RiskRows(pages: map<string, seq<IntervalTable>>): TickerRow {
    t => if t in pages then Some(RiskRecord(t, pages[t])) else None
  }

  function PerformanceRows(pages: map<string, seq<LabelTable>>): TickerRow {
    t => if t in pages then Some(Ok(PerformanceRecord(t, pages[t]))) else None
  }


  // ---------------------------------------------------------------------------------------
  // The runs

  /** What `get_profiles` does after its ticker loop: write the records under the profile
      header to the `__UNSTD__` file, then standardise that file into `output_file`. */
  function ProfilesWritten(list: seq<Record>, output: string): Result<Files> {
    match InsertSuffix(output, UnstdSuffix)
    case Err(e) => Err(e)
    case Ok(unstdPath) =>
      match CsvTable(ProfileFields, list)
      case Err(e) => Err(e)
      case Ok(unstd) =>
        match StandardisedFile(TextRows(unstd), ProfileRowStandardised)
        case Err(e) => Err(e)
        case Ok(std) => Ok(map[unstdPath := unstd, output := std])
  }

  /** `get_profiles(output_file)`. */
  function ProfilesRun(tickers: seq<string>, pages: map<string, seq<LabelTable>>, output: string)
    : Result<Files>
  {
    match Collected(tickers, ProfileRows(pages))
    case Err(e) => Err(e)
    case Ok(list) => ProfilesWritten(list, output)
  }

  /** What `get_risk` does after its ticker loop: the same with the risk header, every column
      but the ticker converted to a number. */
  function RiskWritten(list: seq<Record>, output: string): Result<Files> {
    match InsertSuffix(output, UnstdSuffix)
    case Err(e) => Err(e)
    case Ok(unstdPath) =>
      match CsvTable(RiskFields, list)
      case Err(e) => Err(e)
      case Ok(unstd) =>
        match StandardisedFile(TextRows(unstd), RiskRowStandardiser(RiskColumns))
        case Err(e) => Err(e)
        case Ok(std) => Ok(map[unstdPath := unstd, output := std])
  }

  /** `get_risk(output_file)`. */
  function RiskRun(tickers: seq<string>, pages: map<string, seq<IntervalTable>>, output: string)
    : Result<Files>
  {
    match Collected(tickers, RiskRows(pages))
    case Err(e) => Err(e)
    case Ok(list) => RiskWritten(list, output)
  }

  /** `get_performance(output_file)`: the records are written straight to `output_file`,
      with no standardisation. */
  function PerformanceRun(tickers: seq<string>, pages: map<string, seq<LabelTable>>, output: string)
    : Result<Files>
  {
    match Collected(tickers, PerformanceRows(pages))
    case Err(e) => Err(e)
    case Ok(list) =>
      match CsvTable(PerformanceFields, list)
      case Err(e) => Err(e)
      case Ok(table) => Ok(map[output := table])
  }

  /** The ticker loop of `get_profiles`: the page of each ticker is scraped into a record;
      a missing page is skipped. */
  method CollectProfiles(tickers: seq<string>, pages: map<string, seq<LabelTable>>)
    returns (res: Result<seq<Record>>)
    ensures res == Collected(tickers, ProfileRows(pages))
  {
    res := Collect(tickers, ProfileRows(pages));
  }

  method GetProfiles(tickers: seq<string>, pages: map<string, seq<LabelTable>>, output: string)
    returns (res: Result<Files>)
    ensures res == ProfilesRun(tickers, pages, output)
  {
    var profileList := CollectProfiles(tickers, pages);
    if profileList.Err? {
      return Err(profileList.error);
    }
    var unstdPath := InsertSuffix(output, UnstdSuffix);
    if unstdPath.Err? {
      return Err(unstdPath.error);
    }
    var unstd := WriteCsv(ProfileFields, profileList.value);
    if unstd.Err? {
      return Err(unstd.error);
    }
    var std := StandardiseProfiles(TextRows(unstd.value));
    if std.Err? {
      return Err(std.error);
    }
    return Ok(map[unstdPath.value := unstd.value, output := std.value]);
  }

  /** The ticker loop of `get_risk`. */
  method CollectRisk(tickers: seq<string>, pages: map<string, seq<IntervalTable>>)
    returns (res: Result<seq<Record>>)
    ensures res == Collected(tickers, RiskRows(pages))
  {
    res := Collect(tickers, RiskRows(pages));
  }

  method GetRisk(tickers: seq<string>, pages: map<string, seq<IntervalTable>>, output: string)
    returns (res: Result<Files>)
    ensures res == RiskRun(tickers, pages, output)
  {
    var riskList := CollectRisk(tickers, pages);
    if riskList.Err? {
      return Err(riskList.error);
    }
    var unstdPath := InsertSuffix(output, UnstdSuffix);
    if unstdPath.Err? {
      return Err(unstdPath.error);
    }
    var unstd := WriteCsv(RiskFields, riskList.value);
    if unstd.Err? {
      return Err(unstd.error);
    }
    var std := StandardiseRisk(TextRows(unstd.value), RiskColumns);
    if std.Err? {
      return Err(std.error);
    }
    return Ok(map[unstdPath.value := unstd.value, output := std.value]);
  }

  /** The ticker loop of `get_performance`: nothing a performance page holds can raise, so
      the loop always completes (only the writer can fail). */
  method CollectPerformance(tickers: seq<string>, pages: map<string, seq<LabelTable>>)
    returns (list: seq<Record>)
    ensures Collected(tickers, PerformanceRows(pages)) == Ok(list)
  {
    var res := Collect(tickers, PerformanceRows(pages));
    CollectedRows(tickers, PerformanceRows(pages));
    list := res.value;
  }

  method GetPerformance(tickers: seq<string>, pages: map<string, seq<LabelTable>>, output: string)
    returns (res: Result<Files>)
    ensures res == PerformanceRun(tickers, pages, output)
  {
    var performanceList := CollectPerformance(tickers, pages);
    var table := WriteCsv(PerformanceFields, performanceList);
    if table.Err? {
      return Err(table.error);
    }
    return Ok(map[output := table.value]);
  }

  // ---------------------------------------------------------------------------------------
  // Properties of the runs

  /** A row written by `writecsv` reads back cell by cell as the byte string of its text; a
      row of byte strings reads back as itself. */
  lemma TextRoundTrip(row: seq<Cell>)
    ensures |TextCells(RowText(row))| == |row|
    ensures forall j :: 0 <= j < |row| ==> TextCells(RowText(row))[j] == ReadBack(row[j])
    ensures (forall j :: 0 <= j < |row| ==> row[j].Str? && !row[j].unicode) ==> TextCells(RowText(row)) == row
  {
  }

  /** Every cell `writecsv` writes for a text-only record is text. */
  lemma RowOfText(fields: seq<string>, rec: Record)
    requires AllText(rec)
    ensures forall j :: 0 <= j < |fields| ==> RowOf(fields, rec)[j].Str?
  {
  }

  /** Every record a run collects is one ticker's record, for the tickers whose page exists,
      in ticker order. */
  lemma CollectedRecords(tickers: seq<string>, row: TickerRow)
    requires Collected(tickers, row).Ok?
    ensures var recs, kept := Collected(tickers, row).value, Kept(tickers, row);
      |recs| == |kept| && forall i :: 0 <= i < |kept| ==> row(kept[i]) == Some(Ok(recs[i]))
  {
    CollectedRows(tickers, row);
  }

  /** Every collected profile record is its ticker's record, fits the profile header and
      holds only text. */
  lemma ProfileListFits(tickers: seq<string>, pages: map<string, seq<LabelTable>>)
    requires Collected(tickers, ProfileRows(pages)).Ok?
    ensures var list, kept := Collected(tickers, ProfileRows(pages)).value, Kept(tickers, ProfileRows(pages));
      |list| == |kept| &&
      forall i :: 0 <= i < |list| ==>
        kept[i] in pages && ProfileRecord(kept[i], pages[kept[i]]) == Ok(list[i]) &&
        FitsHeader(list[i], ProfileFields) && AllText(list[i])
  {
    var row := ProfileRows(pages);
    var list, kept := Collected(tickers, row).value, Kept(tickers, row);
    CollectedRecords(tickers, row);
    forall i | 0 <= i < |list|
      ensures kept[i] in pages && ProfileRecord(kept[i], pages[kept[i]]) == Ok(list[i])
      ensures FitsHeader(list[i], ProfileFields) && AllText(list[i])
    {
      assert row(kept[i]) == Some(Ok(list[i]));
      ProfileRecordFits(kept[i], pages[kept[i]]);
    }
  }

  /** The profile ticker loop fails only with UnicodeEncodeError (a non-ASCII label). */
  lemma ProfileCollectedErrors(tickers: seq<string>, pages: map<string, seq<LabelTable>>)
    ensures Collected(tickers, ProfileRows(pages)).Err? ==>
      Collected(tickers, ProfileRows(pages)).error == UnicodeEncodeError
  {
    var row := ProfileRows(pages);
    CollectedRows(tickers, row);
    var c := Collected(tickers, row);
    if c.Err? {
      var i :| 0 <= i < |tickers| && row(tickers[i]) == Some(Err(c.error));
      ProfileRawOk(pages[tickers[i]]);
    }
  }

  /** Writing and standardising profile records fails only with ValueError (an output name
      without exactly one '.', or a value that is not a number after filtering) or with the
      UnicodeEncodeError of the csv writer, which happens only when some record holds a
      unicode value outside ASCII. The header read never fails. */
  lemma ProfilesWrittenErrors(list: seq<Record>, output: string)
    requires forall i :: 0 <= i < |list| ==> FitsHeader(list[i], ProfileFields)
    ensures ProfilesWritten(list, output).Err? ==>
      ProfilesWritten(list, output).error in {ValueError, UnicodeEncodeError}
    ensures ProfilesWritten(list, output) == Err(UnicodeEncodeError) ==>
      exists i :: 0 <= i < |list| && !Encodable(list[i])
  {
    if InsertSuffix(output, UnstdSuffix).Ok? {
      var t := CsvTable(ProfileFields, list);
      if t.Ok? {
        ProfileStandardiseErrors(t.value);
      } else {
        assert !Encodable(list[FirstUnwritable(ProfileFields, list)]);
      }
    }
  }

  /** Standardising a file written under the profile header fails only with ValueError. */
  lemma ProfileStandardiseErrors(unstd: seq<seq<Cell>>)
    requires unstd != [] && forall i :: 0 <= i < |unstd| ==> |unstd[i]| == |ProfileFields|
    ensures StandardisedFile(TextRows(unstd), ProfileRowStandardised).Err? ==>
      StandardisedFile(TextRows(unstd), ProfileRowStandardised).error == ValueError
  {
    var rows := TextRows(unstd);
    StandardisedFileSpec(rows, ProfileRowStandardised);
    ProfileTablesAgree();
    if StandardisedFile(rows, ProfileRowStandardised).Err? {
      var e := StandardisedFile(rows, ProfileRowStandardised).error;
      var i :| 1 <= i < |rows| && ProfileRowStandardised(rows[i]) == Err(e);
      ProfileRowErrors(rows[i]);
    }
  }

  /** A profile run fails only with UnicodeEncodeError or ValueError. */
  lemma ProfilesRunErrors(tickers: seq<string>, pages: map<string, seq<LabelTable>>, output: string)
    ensures ProfilesRun(tickers, pages, output).Err? ==>
      ProfilesRun(tickers, pages, output).error in {UnicodeEncodeError, ValueError}
  {
    ProfileCollectedErrors(tickers, pages);
    if Collected(tickers, ProfileRows(pages)).Ok? {
      ProfileListFits(tickers, pages);
      ProfilesWrittenErrors(Collected(tickers, ProfileRows(pages)).value, output);
    }
  }

  /** Every collected risk record is its ticker's record, fits the risk header, holds only
      text and carries its own ticker. */
  lemma RiskListFits(tickers: seq<string>, pages: map<string, seq<IntervalTable>>)
    requires Collected(tickers, RiskRows(pages)).Ok?
    ensures var list, kept := Collected(tickers, RiskRows(pages)).value, Kept(tickers, RiskRows(pages));
      |list| == |kept| &&
      forall i :: 0 <= i < |list| ==>
        kept[i] in pages && RiskRecord(kept[i], pages[kept[i]]) == Ok(list[i]) &&
        FitsHeader(list[i], RiskFields) && AllText(list[i]) &&
        "ticker" in list[i] && list[i]["ticker"] == Str(kept[i])
  {
    var row := RiskRows(pages);
    var list, kept := Collected(tickers, row).value, Kept(tickers, row);
    CollectedRecords(tickers, row);
    forall i | 0 <= i < |list|
      ensures kept[i] in pages && RiskRecord(kept[i], pages[kept[i]]) == Ok(list[i])
      ensures FitsHeader(list[i], RiskFields) && AllText(list[i])
      ensures "ticker" in list[i] && list[i]["ticker"] == Str(kept[i])
    {
      assert row(kept[i]) == Some(Ok(list[i]));
      RiskRecordFits(kept[i], pages[kept[i]]);
    }
  }

  /** The risk ticker loop fails only with AssertionError (a risk table whose cells do not
      come in threes). */
  lemma RiskCollectedErrors(tickers: seq<string>, pages: map<string, seq<IntervalTable>>)
    ensures Collected(tickers, RiskRows(pages)).Err? ==>
      Collected(tickers, RiskRows(pages)).error == AssertionError
  {
    var row := RiskRows(pages);
    CollectedRows(tickers, row);
    var c := Collected(tickers, row);
    if c.Err? {
      var i :| 0 <= i < |tickers| && row(tickers[i]) == Some(Err(c.error));
      RiskRawOk(pages[tickers[i]]);
    }
  }

  /** Writing and standardising risk records fails only with ValueError or with the
      UnicodeEncodeError of the csv writer, which happens only when some record holds a unicode
      value outside ASCII. */
  lemma RiskWrittenErrors(list: seq<Record>, output: string)
    requires forall i :: 0 <= i < |list| ==> FitsHeader(list[i], RiskFields)
    ensures RiskWritten(list, output).Err? ==>
      RiskWritten(list, output).error in {ValueError, UnicodeEncodeError}
    ensures RiskWritten(list, output) == Err(UnicodeEncodeError) ==>
      exists i :: 0 <= i < |list| && !Encodable(list[i])
  {
    if InsertSuffix(output, UnstdSuffix).Ok? {
      var t := CsvTable(RiskFields, list);
      if t.Ok? {
        RiskStandardiseErrors(t.value);
      } else {
        assert !Encodable(list[FirstUnwritable(RiskFields, list)]);
      }
    }
  }

  /** Standardising a file written under the risk header fails only with ValueError. */
  lemma RiskStandardiseErrors(unstd: seq<seq<Cell>>)
    requires unstd != [] && forall i :: 0 <= i < |unstd| ==> |unstd[i]| == |RiskFields|
    ensures StandardisedFile(TextRows(unstd), RiskRowStandardiser(RiskColumns)).Err? ==>
      StandardisedFile(TextRows(unstd), RiskRowStandardiser(RiskColumns)).error == ValueError
  {
    var rows := TextRows(unstd);
    var std := RiskRowStandardiser(RiskColumns);
    StandardisedFileSpec(rows, std);
    RiskColumnsShape();
    if StandardisedFile(rows, std).Err? {
      var e := StandardisedFile(rows, std).error;
      var i :| 1 <= i < |rows| && std(rows[i]) == Err(e);
      RiskRowErrors(rows[i], RiskColumns);
    }
  }

  /** A risk run fails only with AssertionError, ValueError or UnicodeEncodeError. */
  lemma RiskRunErrors(tickers: seq<string>, pages: map<string, seq<IntervalTable>>, output: string)
    ensures RiskRun(tickers, pages, output).Err? ==>
      RiskRun(tickers, pages, output).error in {AssertionError, ValueError, UnicodeEncodeError}
  {
    RiskCollectedErrors(tickers, pages);
    if Collected(tickers, RiskRows(pages)).Ok? {
      RiskListFits(tickers, pages);
      RiskWrittenErrors(Collected(tickers, RiskRows(pages)).value, output);
    }
  }

  /** A performance run fails only when the csv writer meets a unicode value outside ASCII,
      with UnicodeEncodeError; otherwise it writes one row per ticker whose page exists, in
      ticker order, each the ticker's performance record under the performance header. */
  lemma PerformanceRunOutcome(tickers: seq<string>, pages: map<string, seq<LabelTable>>, output: string)
    ensures var kept := Kept(tickers, PerformanceRows(pages));
      (forall i :: 0 <= i < |kept| ==> kept[i] in pages) &&
      (PerformanceRun(tickers, pages, output).Ok? <==>
        forall i :: 0 <= i < |kept| ==> Encodable(PerformanceRecord(kept[i], pages[kept[i]])))
    ensures PerformanceRun(tickers, pages, output).Err? ==>
      PerformanceRun(tickers, pages, output).error == UnicodeEncodeError
    ensures PerformanceRun(tickers, pages, output).Ok? ==>
      var files, kept := PerformanceRun(tickers, pages, output).value, Kept(tickers, PerformanceRows(pages));
      files.Keys == {output} && |files[output]| == |kept| + 1 &&
      files[output][0] == HeaderRow(PerformanceFields) &&
      forall i :: 0 <= i < |kept| ==>
        (kept[i] in pages && files[output][i + 1] == RowOf(PerformanceFields, PerformanceRecord(kept[i], pages[kept[i]])))
  {
    var row := PerformanceRows(pages);
    CollectedRows(tickers, row);
    var list, kept := Collected(tickers, row).value, Kept(tickers, row);
    forall i | 0 <= i < |list|
      ensures kept[i] in pages
      ensures FitsHeader(list[i], PerformanceFields) && list[i] == PerformanceRecord(kept[i], pages[kept[i]])
    {
      assert row(kept[i]) == Some(Ok(list[i]));
      PerformanceRecordFits(kept[i], pages[kept[i]]);
    }
  }

  /** Each performance row of a completed run starts with its ticker. */
  lemma PerformanceRowsTicker(tickers: seq<string>, pages: map<string, seq<LabelTable>>, output: string)
    ensures PerformanceRun(tickers, pages, output).Ok? ==>
      var table, kept := PerformanceRun(tickers, pages, output).value[output], Kept(tickers, PerformanceRows(pages));
      |table| == |kept| + 1 &&
      forall i :: 0 <= i < |kept| ==> |table[i + 1]| == |PerformanceFields| && table[i + 1][0] == Str(kept[i])
  {
    PerformanceRunOutcome(tickers, pages, output);
    var kept := Kept(tickers, PerformanceRows(pages));
    forall i | 0 <= i < |kept| ensures RowOf(PerformanceFields, PerformanceRecord(kept[i], pages[kept[i]]))[0] == Str(kept[i]) {
      PerformanceTickerColumn(kept[i], pages[kept[i]]);
    }
  }

  lemma PerformanceTickerColumn(ticker: string, page: seq<LabelTable>)
    ensures RowOf(PerformanceFields, PerformanceRecord(ticker, page))[0] == Str(ticker)
  {
    PerformanceTablesAgree();
    PerformanceRecordFits(ticker, page);
  }

  /** `out` is the profile row `row`, read back, after standardisation: net assets, the sales
      load and the two turnovers are converted, every other column is the text as read. */
  predicate ProfileRowConverted(row: seq<Cell>, out: seq<Cell>) {
    |out| == |row| == |ProfileFields| && row[3].Str? &&
    NetAssets(row[3].s) == Ok(out[3]) &&
    FloatCell(ReadBack(row[2])) == Ok(out[2]) &&
    FloatCell(ReadBack(row[9])) == Ok(out[9]) &&
    FloatCell(ReadBack(row[10])) == Ok(out[10]) &&
    forall j :: 0 <= j < |row| && j !in {2, 3, 9, 10} ==> out[j] == ReadBack(row[j])
  }

  /** A profile row after standardisation: net assets, sales load and the two turnovers are
      converted, every other column is the text the scraper wrote. */
  lemma ProfileRowOut(row: seq<Cell>)
    requires |row| == |ProfileFields| && forall j :: 0 <= j < |row| ==> row[j].Str?
    ensures var out := ProfileRowStandardised(RowText(row));
      out.Ok? ==> ProfileRowConverted(row, out.value)
  {
    var text := RowText(row);
    ProfileTablesAgree();
    ProfileRowSpec(text);
    TextRoundTrip(row);
  }

  /** A risk row after standardisation: the ticker column is the text the scraper wrote, read
      back, and every other column is converted. */
  lemma RiskRowOut(row: seq<Cell>)
    requires |row| == |RiskFields| && forall j :: 0 <= j < |row| ==> row[j].Str?
    ensures var out := RiskRowStandardiser(RiskColumns)(RowText(row));
      out.Ok? ==>
        |out.value| == |row| && out.value[0] == ReadBack(row[0]) &&
        forall j :: 1 <= j < |row| ==> FloatCell(ReadBack(row[j])) == Ok(out.value[j])
  {
    var text := RowText(row);
    var cells := TextCells(text);
    RiskColumnsShape();
    TextRoundTrip(row);
    ColumnsConvertedSpec(cells, RiskColumns, FloatCell);
    var out := ColumnsConverted(cells, RiskColumns, FloatCell);
    if out.Ok? {
      forall j | 1 <= j < |row| ensures FloatCell(ReadBack(row[j])) == Ok(out.value[j]) {
        assert RiskColumns[j - 1] == j;
      }
    }
  }

  /** The standardised profile file: the profile header, then one row per record in list
      order, in which net assets, the sales load and the two turnovers are converted and every
      other column, the ticker included, is what `writecsv` wrote for the record. */
  lemma ProfilesWrittenRows(list: seq<Record>, output: string)
    requires forall i :: 0 <= i < |list| ==> FitsHeader(list[i], ProfileFields) && AllText(list[i])
    ensures var r := ProfilesWritten(list, output);
      r.Ok? ==>
        output in r.value && |r.value[output]| == |list| + 1 &&
        r.value[output][0] == HeaderRow(ProfileFields) &&
        forall i :: 0 <= i < |list| ==>
          ProfileRowConverted(RowOf(ProfileFields, list[i]), r.value[output][i + 1])
  {
    var r := ProfilesWritten(list, output);
    if r.Ok? {
      var unstd := CsvTable(ProfileFields, list).value;
      var rows := TextRows(unstd);
      var std := StandardisedFile(rows, ProfileRowStandardised).value;
      assert r.value[output] == std;
      StandardisedFileSpec(rows, ProfileRowStandardised);
      TextRoundTrip(HeaderRow(ProfileFields));
      forall i | 0 <= i < |list|
        ensures ProfileRowConverted(RowOf(ProfileFields, list[i]), std[i + 1])
      {
        var row := RowOf(ProfileFields, list[i]);
        assert unstd[i + 1] == row;
        RowOfText(ProfileFields, list[i]);
        ProfileRowOut(row);
      }
    }
  }

  /** The standardised risk file: the risk header, then one row per record in list order,
      whose first column is the ticker as written and whose every other column is converted. */
  lemma RiskWrittenRows(list: seq<Record>, output: string)
    requires forall i :: 0 <= i < |list| ==> FitsHeader(list[i], RiskFields) && AllText(list[i])
    ensures var r := RiskWritten(list, output);
      r.Ok? ==>
        output in r.value && |r.value[output]| == |list| + 1 &&
        r.value[output][0] == HeaderRow(RiskFields) &&
        forall i :: 0 <= i < |list| ==>
          var row, out := RowOf(RiskFields, list[i]), r.value[output][i + 1];
          |out| == |row| && out[0] == ReadBack(row[0]) &&
          forall j :: 1 <= j < |row| ==> FloatCell(ReadBack(row[j])) == Ok(out[j])
  {
    var r := RiskWritten(list, output);
    if r.Ok? {
      var unstd := CsvTable(RiskFields, list).value;
      var rows := TextRows(unstd);
      var std := StandardisedFile(rows, RiskRowStandardiser(RiskColumns)).value;
      assert r.value[output] == std;
      StandardisedFileSpec(rows, RiskRowStandardiser(RiskColumns));
      TextRoundTrip(HeaderRow(RiskFields));
      forall i | 0 <= i < |list|
        ensures var row, out := RowOf(RiskFields, list[i]), std[i + 1];
          |out| == |row| && out[0] == ReadBack(row[0]) &&
          forall j :: 1 <= j < |row| ==> FloatCell(ReadBack(row[j])) == Ok(out[j])
      {
        var row := RowOf(RiskFields, list[i]);
        assert unstd[i + 1] == row;
        RowOfText(RiskFields, list[i]);
        RiskRowOut(row);
      }
    }
  }
}
