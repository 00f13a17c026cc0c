/** What the Yahoo scraper reads from one fund page (src/yfnc_fundpage_scraper.py): the raw
    label dictionary of a profile, risk or performance page, and the output record remapped
    from it. The HTML itself is not modelled: a page is the sequence of the cell texts the
    scraper's BeautifulSoup queries return. */
module YfncPages {
  import opened Wrappers
  import opened PyStrings
  import opened AbstractScraper
  import opened YfncKeyMappings
  import opened LabelRemap

  /** A title table of a profile page, or a table of a performance page: the texts of its
      label cells (`yfnc_datamodlabel1`) and of its data cells (`yfnc_datamoddata1`). */
  datatype LabelTable = LabelTable(labels: seq<string>, values: seq<string>)

  /** A risk table (`yfnc_tableout1`): the text of its heading cell, which names the
      interval, and the texts of its data cells, three per statistic (label, fund, category). */
  datatype IntervalTable = IntervalTable(interval: string, cells: seq<string>)

  /** The record every page starts from: `{"ticker": ticker}`. */
  function Seed(ticker: string): (rec: Record)
    ensures rec.Keys == {"ticker"} && rec["ticker"] == Str(ticker)
  {
    map["ticker" := Str(ticker)]
  }

  // ---------------------------------------------------------------------------------------
  // Profile pages

  /** The characters a profile label loses: ':' and '\n' (`str.translate`) and ' '
      (`re.sub("[ ]+", "", ...)`). */
  const LabelDeletions: set<char> := {':', '\n', ' '}

  /** A profile label as a raw key: `l.text.encode("ascii")` raises UnicodeEncodeError on a
      non-ASCII label; otherwise colons, newlines and spaces are deleted. */
  function SanitiseLabel(l: string): (r: Result<string>)
    ensures r.Ok? <==> IsAscii(l)
    ensures r.Err? ==> r.error == UnicodeEncodeError
    ensures r.Ok? ==> CleanKey(r.value)
  {
    if IsAscii(l) then
      var k := DeleteChars(l, LabelDeletions);
      assert CleanKey(k) by {
        DeleteCharsMembers(l, LabelDeletions);
        forall i | 0 <= i < |k| ensures k[i] < 128 as char && k[i] !in LabelDeletions {
          assert k[i] in k;
        }
      }
      Ok(k)
    else Err(UnicodeEncodeError)
  }

  /** Sanitising keeps exactly the label's characters other than colon, newline and space. */
  lemma SanitiseLabelChars(l: string)
    requires IsAscii(l)
    ensures forall c :: c in SanitiseLabel(l).value <==> c in l && c !in LabelDeletions
  {
    DeleteCharsMembers(l, LabelDeletions);
  }

  /** A sanitised label is its own sanitised form. */
  lemma SanitiseLabelIdempotent(l: string)
    requires SanitiseLabel(l).Ok?
    ensures SanitiseLabel(SanitiseLabel(l).value) == SanitiseLabel(l)
  {
    var k := SanitiseLabel(l).value;
    forall i | 0 <= i < |k| ensures k[i] !in LabelDeletions {
      assert k[i] in k;
    }
    DeleteCharsNone(k, LabelDeletions);
  }

  /** `labelkeys = [sanitised(l) for l in labels]`: the first non-ASCII label raises. */
  function SanitisedLabels(labels: seq<string>): (r: Result<seq<string>>)
    ensures r.Ok? <==> forall i :: 0 <= i < |labels| ==> IsAscii(labels[i])
    ensures r.Err? ==> r.error == UnicodeEncodeError
    ensures r.Ok? ==> |r.value| == |labels|
    ensures r.Ok? ==> forall i :: 0 <= i < |labels| ==> SanitiseLabel(labels[i]) == Ok(r.value[i])
  {
    if forall i :: 0 <= i < |labels| ==> IsAscii(labels[i]) then
      Ok(seq(|labels|, i requires 0 <= i < |labels| => SanitiseLabel(labels[i]).value))
    else Err(UnicodeEncodeError)
  }

  /** Every label of the table is ASCII. */
  predicate AsciiLabels(t: LabelTable) {
    forall i :: 0 <= i < |t.labels| ==> IsAscii(t.labels[i])
  }

  /** What is left of a label after sanitising: ASCII, with no colon, newline or space. */
  predicate CleanKey(k: string) {
    forall i :: 0 <= i < |k| ==> k[i] < 128 as char && k[i] !in LabelDeletions
  }

  /** `dict(zip(labelkeys, labelvals))` for one title table. */
  function TableRaw(t: LabelTable): (r: Result<RawMap>)
    ensures r.Ok? <==> AsciiLabels(t)
    ensures r.Err? ==> r.error == UnicodeEncodeError
    ensures r.Ok? ==> Valid(r.value)
  {
    match SanitisedLabels(t.labels)
    case Err(e) => Err(e)
    case Ok(keys) => Ok(FromZip(keys, t.values))
  }

  /** Every key of a table's dictionary is a sanitised label. */
  lemma TableRawKeysClean(t: LabelTable)
    requires TableRaw(t).Ok?
    ensures forall k :: k in TableRaw(t).value.m ==> CleanKey(k)
  {
    var keys := SanitisedLabels(t.labels).value;
    var n := Min(|keys|, |t.values|);
    forall k | k in TableRaw(t).value.m ensures CleanKey(k) {
      var j :| 0 <= j < n && keys[..n][j] == k;
      assert SanitiseLabel(t.labels[j]) == Ok(k);
    }
  }

  /** `raw_profile` after the loop over the title tables: each table's dictionary is merged in
      turn (`raw_profile.update`), so a later table wins on a shared key. */
  function ProfileRaw(page: seq<LabelTable>): (r: Result<RawMap>)
    ensures r.Ok? ==> Valid(r.value)
    decreases |page|
  {
    if page == [] then Ok(EmptyRaw)
    else
      match ProfileRaw(page[..|page| - 1])
      case Err(e) => Err(e)
      case Ok(raw) =>
        match TableRaw(page[|page| - 1])
        case Err(e) => Err(e)
        case Ok(t) => Ok(Update(raw, t))
  }

  /** The loop `for table in title_tables: ... raw_profile.update(dict(zip(labelkeys,
      labelvals)))`. */
  method BuildProfileRaw(page: seq<LabelTable>) returns (res: Result<RawMap>)
    ensures res == ProfileRaw(page)
  {
    var raw := EmptyRaw;
    var i := 0;
    while i < |page|
      invariant 0 <= i <= |page|
      invariant ProfileRaw(page[..i]) == Ok(raw)
    {
      assert page[..i + 1][..i] == page[..i];
      var labelKeys := SanitisedLabels(page[i].labels);
      if labelKeys.Err? {
        ProfileRawErrorSticks(page, i + 1);
        return Err(labelKeys.error);
      }
      raw := Update(raw, FromZip(labelKeys.value, page[i].values));
      i := i + 1;
    }
    assert page[..i] == page;
    return Ok(raw);
  }

  lemma {:induction false} ProfileRawErrorSticks(page: seq<LabelTable>, n: nat)
    requires n <= |page| && ProfileRaw(page[..n]).Err?
    ensures ProfileRaw(page) == ProfileRaw(page[..n])
    decreases |page|
  {
    if n < |page| {
      var front := page[..|page| - 1];
      assert front[..n] == page[..n];
      ProfileRawErrorSticks(front, n);
    } else {
      assert page[..n] == page;
    }
  }

  /** A profile page is read exactly when all its labels are ASCII; otherwise the encode
      raises UnicodeEncodeError. */
  lemma {:induction false} ProfileRawOk(page: seq<LabelTable>)
    ensures ProfileRaw(page).Ok? <==> forall t :: 0 <= t < |page| ==> AsciiLabels(page[t])
    ensures ProfileRaw(page).Err? ==> ProfileRaw(page).error == UnicodeEncodeError
    decreases |page|
  {
    if page != [] {
      ProfileRawOk(page[..|page| - 1]);
      ProfileRawOutcome(page);
      AsciiExtend(page);
    }
  }

  lemma AsciiExtend(page: seq<LabelTable>)
    requires page != []
    ensures var front := page[..|page| - 1];
      (forall t :: 0 <= t < |page| ==> AsciiLabels(page[t])) <==>
      (forall t :: 0 <= t < |front| ==> AsciiLabels(front[t])) && AsciiLabels(page[|page| - 1])
  {
    var front := page[..|page| - 1];
    assert forall t :: 0 <= t < |front| ==> page[t] == front[t];
  }

  /** One step of `ProfileRaw`: the page is read when the tables before the last are and the
      last one has ASCII labels; an error is the earlier one or the last table's. */
  lemma ProfileRawOutcome(page: seq<LabelTable>)
    requires page != []
    ensures var front, last := ProfileRaw(page[..|page| - 1]), page[|page| - 1];
      (ProfileRaw(page).Ok? <==> front.Ok? && AsciiLabels(last)) &&
      (ProfileRaw(page).Err? ==> (front.Err? && ProfileRaw(page) == front) || ProfileRaw(page) == Err(UnicodeEncodeError))
  {
  }

  /** Every raw profile key is ASCII and holds no colon, newline or space. */
  lemma {:induction false} ProfileRawKeysClean(page: seq<LabelTable>)
    requires ProfileRaw(page).Ok?
    ensures forall k :: k in ProfileRaw(page).value.m ==> CleanKey(k)
    decreases |page|
  {
    if page != [] {
      ProfileRawKeysClean(page[..|page| - 1]);
      TableRawKeysClean(page[|page| - 1]);
    }
  }

  /** A key of table `t` that no later table carries keeps table `t`'s value. */
  lemma ProfileRawLaterTablesWin(page: seq<LabelTable>, t: nat, k: string)
    requires ProfileRaw(page).Ok? && t < |page|
    requires TableRaw(page[t]).Ok? && k in TableRaw(page[t]).value.m
    requires forall u :: t < u < |page| ==> TableRaw(page[u]).Ok? && k !in TableRaw(page[u]).value.m
    ensures k in ProfileRaw(page).value.m && ProfileRaw(page).value.m[k] == TableRaw(page[t]).value.m[k]
  {
    assert page[..|page|] == page;
    PrefixLaterTablesWin(page, |page|, t, k);
  }

  /** The same, for the tables before position `n`. */
  lemma {:induction false} PrefixLaterTablesWin(page: seq<LabelTable>, n: nat, t: nat, k: string)
    requires t < n <= |page| && ProfileRaw(page[..n]).Ok?
    requires TableRaw(page[t]).Ok? && k in TableRaw(page[t]).value.m
    requires forall u :: t < u < n ==> TableRaw(page[u]).Ok? && k !in TableRaw(page[u]).value.m
    ensures k in ProfileRaw(page[..n]).value.m && ProfileRaw(page[..n]).value.m[k] == TableRaw(page[t]).value.m[k]
    decreases n
  {
    var prefix := page[..n];
    ProfileRawStep(prefix);
    assert prefix[..n - 1] == page[..n - 1];
    assert prefix[n - 1] == page[n - 1];
    var before, last := ProfileRaw(page[..n - 1]).value.m, TableRaw(page[n - 1]).value.m;
    assert ProfileRaw(prefix).value.m == before + last;
    if t < n - 1 {
      PrefixLaterTablesWin(page, n - 1, t, k);
      assert k !in last;
    }
  }

  /** A page that is read merges its last table into what the tables before it give. */
  lemma ProfileRawStep(page: seq<LabelTable>)
    requires page != [] && ProfileRaw(page).Ok?
    ensures ProfileRaw(page[..|page| - 1]).Ok? && TableRaw(page[|page| - 1]).Ok?
    ensures ProfileRaw(page).value.m == ProfileRaw(page[..|page| - 1]).value.m + TableRaw(page[|page| - 1]).value.m
  {
  }

  // ---------------------------------------------------------------------------------------
  // Risk pages

  /** `cells[offset::3]` of a list whose length is a multiple of three. */
  function Every3(cells: seq<string>, offset: nat): (r: seq<string>)
    requires |cells| % 3 == 0 && offset < 3
    ensures |r| == |cells| / 3 && forall k :: 0 <= k < |r| ==> r[k] == cells[3 * k + offset]
  {
    seq(|cells| / 3, k requires 0 <= k < |cells| / 3 => cells[3 * k + offset])
  }

  /** Every risk table has a multiple of three data cells. */
  predicate Triples(t: IntervalTable) {
    |t.cells| % 3 == 0
  }

  /** The raw keys `l.text + "(" + interval + ")" + column` of one risk table. */
  function SideKeys(t: IntervalTable, column: string): (r: seq<string>)
    requires Triples(t)
    ensures |r| == |t.cells| / 3
    ensures forall k :: 0 <= k < |r| ==> r[k] == RiskKey(t.cells[3 * k], t.interval, column)
  {
    seq(|t.cells| / 3, k requires 0 <= k < |t.cells| / 3 => RiskKey(t.cells[3 * k], t.interval, column))
  }

  /** One column of a risk table as a dictionary: `securitydata` (column "__SEC", the cells
      `cells[1::3]`) or `categorydata` (column "__CAT", the cells `cells[2::3]`). */
  function SideRaw(t: IntervalTable, column: string, offset: nat): (r: RawMap)
    requires Triples(t) && offset < 3
    ensures Valid(r)
    ensures forall key :: key in r.m ==> EndsWithText(key, column)
  {
    var r := FromZip(SideKeys(t, column), Every3(t.cells, offset));
    var n := |t.cells| / 3;
    forall key | key in r.m ensures EndsWithText(key, column) {
      var j :| 0 <= j < n && SideKeys(t, column)[..n][j] == key;
    }
    r
  }

  /** The statistic in cells 3k, 3k+1, 3k+2, when no later row of the table repeats its
      label, leaves the cell at `offset` under its key. */
  lemma SideRawValue(t: IntervalTable, column: string, offset: nat, k: nat)
    requires Triples(t) && offset < 3 && k < |t.cells| / 3
    requires forall j :: k < j < |t.cells| / 3 ==> t.cells[3 * j] != t.cells[3 * k]
    ensures var key := RiskKey(t.cells[3 * k], t.interval, column);
      key in SideRaw(t, column, offset).m && SideRaw(t, column, offset).m[key] == t.cells[3 * k + offset]
  {
    var keys := SideKeys(t, column);
    forall j | k < j < |t.cells| / 3 ensures keys[j] != keys[k] {
      SideKeyInjective(t.cells[3 * j], t.cells[3 * k], t.interval, column);
    }
    FromZipLastWins(keys, Every3(t.cells, offset), k);
  }

  /** One risk table merged into `raw`: the cell count must be a multiple of three (the
      `assert` raises AssertionError otherwise); the fund values are merged under "__SEC"
      keys, then the category values under "__CAT" keys. */
  function IntervalRaw(raw: RawMap, t: IntervalTable): (r: Result<RawMap>)
    requires Valid(raw)
    ensures r.Ok? <==> Triples(t)
    ensures r.Err? ==> r.error == AssertionError
    ensures r.Ok? ==> Valid(r.value) && r.value.m == raw.m + SideRaw(t, "__SEC", 1).m + SideRaw(t, "__CAT", 2).m
  {
    if !Triples(t) then Err(AssertionError)
    else Ok(Update(Update(raw, SideRaw(t, "__SEC", 1)), SideRaw(t, "__CAT", 2)))
  }

  /** `raw_risk` after the loop over the risk tables. */
  function RiskRaw(page: seq<IntervalTable>): (r: Result<RawMap>)
    ensures r.Ok? ==> Valid(r.value)
    decreases |page|
  {
    if page == [] then Ok(EmptyRaw)
    else
      match RiskRaw(page[..|page| - 1])
      case Err(e) => Err(e)
      case Ok(raw) => IntervalRaw(raw, page[|page| - 1])
  }

  /** The loop `for table in risk_tables: ... raw_risk.update(securitydata);
      raw_risk.update(categorydata)`. */
  method BuildRiskRaw(page: seq<IntervalTable>) returns (res: Result<RawMap>)
    ensures res == RiskRaw(page)
  {
    var raw := EmptyRaw;
    var i := 0;
    while i < |page|
      invariant 0 <= i <= |page|
      invariant RiskRaw(page[..i]) == Ok(raw)
    {
      assert page[..i + 1][..i] == page[..i];
      var table := page[i];
      if |table.cells| % 3 != 0 {
        RiskRawErrorSticks(page, i + 1);
        return Err(AssertionError);
      }
      var securityData := SideRaw(table, "__SEC", 1);
      var categoryData := SideRaw(table, "__CAT", 2);
      raw := Update(raw, securityData);
      raw := Update(raw, categoryData);
      i := i + 1;
    }
    assert page[..i] == page;
    return Ok(raw);
  }

  lemma {:induction false} RiskRawErrorSticks(page: seq<IntervalTable>, n: nat)
    requires n <= |page| && RiskRaw(page[..n]).Err?
    ensures RiskRaw(page) == RiskRaw(page[..n])
    decreases |page|
  {
    if n < |page| {
      var front := page[..|page| - 1];
      assert front[..n] == page[..n];
      RiskRawErrorSticks(front, n);
    } else {
      assert page[..n] == page;
    }
  }

  /** A risk page is read exactly when every table has a multiple of three cells. */
  lemma {:induction false} RiskRawOk(page: seq<IntervalTable>)
    ensures RiskRaw(page).Ok? <==> forall t :: 0 <= t < |page| ==> Triples(page[t])
    ensures RiskRaw(page).Err? ==> RiskRaw(page).error == AssertionError
    decreases |page|
  {
    if page != [] {
      RiskRawOk(page[..|page| - 1]);
      RiskRawStep(page);
      TriplesExtend(page);
    }
  }

  lemma TriplesExtend(page: seq<IntervalTable>)
    requires page != []
    ensures var front := page[..|page| - 1];
      (forall t :: 0 <= t < |page| ==> Triples(page[t])) <==>
      (forall t :: 0 <= t < |front| ==> Triples(front[t])) && Triples(page[|page| - 1])
  {
    var front := page[..|page| - 1];
    assert forall t :: 0 <= t < |front| ==> page[t] == front[t];
  }

  /** One step of `RiskRaw`: the page is read when the tables before the last are and the
      last one holds whole triples; an error is the earlier one or the last table's. */
  lemma RiskRawStep(page: seq<IntervalTable>)
    requires page != []
    ensures var front, last := RiskRaw(page[..|page| - 1]), page[|page| - 1];
      (RiskRaw(page).Ok? <==> front.Ok? && Triples(last)) &&
      (RiskRaw(page).Err? ==> (front.Err? && RiskRaw(page) == front) || RiskRaw(page) == Err(AssertionError))
  {
  }

  /** Keys built for one interval and column determine the statistic label. */
  lemma SideKeyInjective(a: string, b: string, interval: string, column: string)
    ensures RiskKey(a, interval, column) == RiskKey(b, interval, column) <==> a == b
  {
    var k := RiskKey(a, interval, column);
    if k == RiskKey(b, interval, column) {
      assert |a| == |b|;
      assert a == k[..|a|] == b;
    }
  }

  /** A fund key never ends like a category key. */
  lemma SidesDiffer(key: string)
    ensures !(EndsWithText(key, "__SEC") && EndsWithText(key, "__CAT"))
  {
    EndsWithLast(key, "__SEC");
    EndsWithLast(key, "__CAT");
  }

  /** A fund value merged from one risk table stays in the raw dictionary: the category
      column merged after it never overwrites a "__SEC" key. */
  lemma MergedFund(raw: RawMap, t: IntervalTable, key: string)
    requires Valid(raw) && Triples(t)
    requires key in SideRaw(t, "__SEC", 1).m
    ensures IntervalRaw(raw, t).Ok?
    ensures var m := IntervalRaw(raw, t).value.m;
      key in m && m[key] == SideRaw(t, "__SEC", 1).m[key]
  {
    FundKeyNotCategory(t, key);
  }

  /** A category value merged from one risk table is in the raw dictionary. */
  lemma MergedCategory(raw: RawMap, t: IntervalTable, key: string)
    requires Valid(raw) && Triples(t)
    requires key in SideRaw(t, "__CAT", 2).m
    ensures IntervalRaw(raw, t).Ok?
    ensures var m := IntervalRaw(raw, t).value.m;
      key in m && m[key] == SideRaw(t, "__CAT", 2).m[key]
  {
  }

  lemma FundKeyNotCategory(t: IntervalTable, key: string)
    requires Triples(t) && EndsWithText(key, "__SEC")
    ensures key !in SideRaw(t, "__CAT", 2).m
  {
    SidesDiffer(key);
  }

  /** Every raw risk key ends in "__SEC" or "__CAT". */
  lemma {:induction false} RiskRawKeysTagged(page: seq<IntervalTable>)
    requires RiskRaw(page).Ok?
    ensures forall k :: k in RiskRaw(page).value.m ==> EndsWithText(k, "__SEC") || EndsWithText(k, "__CAT")
    decreases |page|
  {
    if page != [] {
      RiskRawKeysTagged(page[..|page| - 1]);
    }
  }

  // ---------------------------------------------------------------------------------------
  // Performance pages

  /** `dict(zip(intervals, returns))` from the second `yfnc_datamodoutline1` table; a page
      with fewer than two such tables gives an empty dictionary (the IndexError is caught). */
  function PerformanceRaw(page: seq<LabelTable>): (r: RawMap)
    ensures Valid(r)
    ensures |page| < 2 ==> r == EmptyRaw
    ensures |page| >= 2 ==> forall k :: k in r.m <==> k in page[1].labels[..Min(|page[1].labels|, |page[1].values|)]
  {
    if |page| < 2 then EmptyRaw else FromZip(page[1].labels, page[1].values)
  }

  // ---------------------------------------------------------------------------------------
  // Records

  /** The profile record of one ticker: the seed remapped through the profile keymap, every
      selected value losing "%" and "N/A". */
  function ProfileRecord(ticker: string, page: seq<LabelTable>): Result<Record> {
    match ProfileRaw(page)
    case Err(e) => Err(e)
    case Ok(raw) => Ok(Remapped(Seed(ticker), raw, ProfileKeymap, PercentAndNA))
  }

  /** The risk record of one ticker: selected values lose "N/A" only. */
  function RiskRecord(ticker: string, page: seq<IntervalTable>): Result<Record> {
    match RiskRaw(page)
    case Err(e) => Err(e)
    case Ok(raw) => Ok(Remapped(Seed(ticker), raw, RiskKeymap, NAOnly))
  }

  /** The performance record of one ticker: selected values lose "%" and "N/A". */
  function PerformanceRecord(ticker: string, page: seq<LabelTable>): Record {
    Remapped(Seed(ticker), PerformanceRaw(page), PerformanceKeymap, PercentAndNA)
  }

  /** The body of the `get_profiles` loop for a page that could be opened. */
  method ScrapeProfile(ticker: string, page: seq<LabelTable>) returns (res: Result<Record>)
    ensures res == ProfileRecord(ticker, page)
  {
    var raw := BuildProfileRaw(page);
    if raw.Err? {
      return Err(raw.error);
    }
    var rec := Remap(Seed(ticker), raw.value, ProfileKeymap, PercentAndNA);
    return Ok(rec);
  }

  /** The body of the `get_risk` loop for a page that could be opened. */
  method ScrapeRisk(ticker: string, page: seq<IntervalTable>) returns (res: Result<Record>)
    ensures res == RiskRecord(ticker, page)
  {
    var raw := BuildRiskRaw(page);
    if raw.Err? {
      return Err(raw.error);
    }
    var rec := Remap(Seed(ticker), raw.value, RiskKeymap, NAOnly);
    return Ok(rec);
  }

  /** The body of the `get_performance` loop for a page that could be opened. */
  method ScrapePerformance(ticker: string, page: seq<LabelTable>) returns (rec: Record)
    ensures rec == PerformanceRecord(ticker, page)
  {
    var raw := PerformanceRaw(page);
    rec := Remap(Seed(ticker), raw, PerformanceKeymap, PercentAndNA);
  }

  // ---------------------------------------------------------------------------------------
  // Properties of the records

  /** A record holds the ticker and otherwise only keymap keys, and all of its values are
      text. */
  lemma RemappedShape(ticker: string, raw: RawMap, km: Keymap, norm: Norm)
    requires Valid(raw) && Distinct(Keys(km))
    ensures var rec := Remapped(Seed(ticker), raw, km, norm);
      "ticker" in rec && AllText(rec) && forall k :: k in rec ==> k == "ticker" || k in Keys(km)
  {
    var rec := Remapped(Seed(ticker), raw, km, norm);
    RemappedKeys(Seed(ticker), raw, km, norm);
    forall k | k in rec ensures rec[k].Str? {
      RemappedValue(Seed(ticker), raw, km, norm, k);
    }
  }

  /** A profile record has only profile fields, so it fits the profile header. */
  lemma ProfileRecordFits(ticker: string, page: seq<LabelTable>)
    requires ProfileRecord(ticker, page).Ok?
    ensures FitsHeader(ProfileRecord(ticker, page).value, ProfileFields)
    ensures AllText(ProfileRecord(ticker, page).value)
    ensures "ticker" in ProfileRecord(ticker, page).value
  {
    ProfileTablesAgree();
    RemappedShape(ticker, ProfileRaw(page).value, ProfileKeymap, PercentAndNA);
  }

  /** A risk record has only risk fields. */
  lemma RiskRecordFits(ticker: string, page: seq<IntervalTable>)
    requires RiskRecord(ticker, page).Ok?
    ensures FitsHeader(RiskRecord(ticker, page).value, RiskFields)
    ensures AllText(RiskRecord(ticker, page).value)
    ensures "ticker" in RiskRecord(ticker, page).value && RiskRecord(ticker, page).value["ticker"] == Str(ticker)
  {
    var raw := RiskRaw(page).value;
    RiskRecordShape(ticker, raw);
    RiskTickerKept(ticker, raw);
  }

  lemma RiskRecordShape(ticker: string, raw: RawMap)
    requires Valid(raw)
    ensures FitsHeader(Remapped(Seed(ticker), raw, RiskKeymap, NAOnly), RiskFields)
    ensures AllText(Remapped(Seed(ticker), raw, RiskKeymap, NAOnly))
  {
    RiskTablesAgree();
    var rec := Remapped(Seed(ticker), raw, RiskKeymap, NAOnly);
    RemappedShape(ticker, raw, RiskKeymap, NAOnly);
    forall k | k in rec ensures k in RiskFields {
      if k != "ticker" {
        assert k in RiskFields[1..];
      }
    }
  }

  lemma RiskTickerKept(ticker: string, raw: RawMap)
    requires Valid(raw)
    ensures var rec := Remapped(Seed(ticker), raw, RiskKeymap, NAOnly);
      "ticker" in rec && rec["ticker"] == Str(ticker)
  {
    RiskTablesAgree();
    assert "ticker" !in RiskFields[1..] by {
      assert forall i :: 1 <= i < |RiskFields| ==> RiskFields[i] != RiskFields[0];
    }
    RemappedFrame(Seed(ticker), raw, RiskKeymap, NAOnly, "ticker");
  }

  /** A performance record has only performance fields and always keeps the ticker. */
  lemma PerformanceRecordFits(ticker: string, page: seq<LabelTable>)
    ensures FitsHeader(PerformanceRecord(ticker, page), PerformanceFields)
    ensures AllText(PerformanceRecord(ticker, page))
    ensures "ticker" in PerformanceRecord(ticker, page) && PerformanceRecord(ticker, page)["ticker"] == Str(ticker)
  {
    PerformanceTablesAgree();
    PerformanceLabelsPrefixFree();
    assert Distinct(Keys(PerformanceKeymap)) by {
      assert Keys(PerformanceKeymap) == ["R1", "R3", "R5", "R10"];
    }
    RemappedShape(ticker, PerformanceRaw(page), PerformanceKeymap, PercentAndNA);
    RemappedFrame(Seed(ticker), PerformanceRaw(page), PerformanceKeymap, PercentAndNA, "ticker");
  }

  /** A performance page without its second table gives the bare `{"ticker": ticker}`. */
  lemma PerformanceWithoutTable(ticker: string, page: seq<LabelTable>)
    requires |page| < 2
    ensures PerformanceRecord(ticker, page) == Seed(ticker)
  {
    RemappedEmpty(Seed(ticker), PerformanceKeymap, PercentAndNA);
  }

  /** Profile and performance values carry no "%": every value is either the seed ticker or
      a cleaned page value. */
  lemma NoPercentLeft(ticker: string, raw: RawMap, km: Keymap, k: string)
    requires Valid(raw) && k in Remapped(Seed(ticker), raw, km, PercentAndNA)
    ensures var v := Remapped(Seed(ticker), raw, km, PercentAndNA)[k];
      v == Str(ticker) || (v.Str? && '%' !in v.s)
  {
    RemappedValue(Seed(ticker), raw, km, PercentAndNA, k);
    var v := Remapped(Seed(ticker), raw, km, PercentAndNA)[k];
    if v != Str(ticker) {
      var f :| f in raw.m && v == Unicode(Normalise(PercentAndNA, raw.m[f]));
      NormalisedHasNoPercent(raw.m[f]);
    }
  }

  /** The ticker of a profile record is the page's own ticker unless some raw label starts
      with "ticker", in which case that label's cleaned value replaces it. That value is page
      text, so `writerow` writes the record only when it is ASCII. */
  lemma ProfileTicker(ticker: string, page: seq<LabelTable>)
    requires ProfileRecord(ticker, page).Ok?
    ensures var raw, rec := ProfileRaw(page).value, ProfileRecord(ticker, page).value;
      var hit := LastMatch(raw.order, "ticker");
      "ticker" in rec &&
      (hit.None? ==> rec["ticker"] == Str(ticker)) &&
      (hit.Some? ==> rec["ticker"] == Unicode(Normalise(PercentAndNA, raw.m[raw.order[hit.value]]))) &&
      (hit.Some? && Encodable(rec) ==> IsAscii(rec["ticker"].s))
  {
    ProfileTablesAgree();
    assert ProfileKeymap[0] == ("ticker", "ticker");
    RemappedEntry(Seed(ticker), ProfileRaw(page).value, ProfileKeymap, PercentAndNA, 0);
  }

  /** A page whose one title table labels a cell "ticker" and prints beside it a text `v`
      that is not ASCII (U+00E9, say) gives a profile record `writerow` refuses, whatever the
      ticker read from the list. */
  lemma PageTickerRefused(ticker: string, v: string)
    requires !IsAscii(v) && '%' !in v && '/' !in v
    ensures var page := [LabelTable(["ticker"], [v])];
      ProfileRecord(ticker, page).Ok? && !Encodable(ProfileRecord(ticker, page).value)
  {
    var page := [LabelTable(["ticker"], [v])];
    var raw := RawMap(["ticker"], map["ticker" := v]);
    SingleLabelRaw("ticker", v);
    ProfileTicker(ticker, page);
    assert LastMatch(raw.order, "ticker") == Some(0);
    ReplaceAbsent(v, "%", "", '%');
    ReplaceAbsent(v, "N/A", "", '/');
  }

  /** A page of one title table with one label and one value gives the one-entry dictionary
      of that label, when the label is ASCII and has nothing to delete. */
  lemma SingleLabelRaw(l: string, v: string)
    requires IsAscii(l) && forall i :: 0 <= i < |l| ==> l[i] !in LabelDeletions
    ensures ProfileRaw([LabelTable([l], [v])]) == Ok(RawMap([l], map[l := v]))
  {
    var page := [LabelTable([l], [v])];
    var raw := RawMap([l], map[l := v]);
    DeleteCharsNone(l, LabelDeletions);
    var keys := SanitisedLabels([l]).value;
    assert |keys| == 1 && keys[0] == l;
    assert keys == [l];
    assert FromZip([l], [v]) == raw;
    assert page[..0] == [] && TableRaw(page[0]) == Ok(raw);
    assert Update(EmptyRaw, raw) == raw by {
      assert [l][..0] == [];
      assert UpdateKeys(EmptyRaw, [l], raw.m) == Set(UpdateKeys(EmptyRaw, [], raw.m), l, v);
    }
  }
}
