/** `GfncScraper` (src/gfnc_scraper.py): the profile, risk and alternate performance runs over
    saved Google Finance pages, and `scrape`, which runs them one after the other. Each run
    sees a saved page through the few elements it descends to; a ticker without a saved page
    stands for the IOError of `open`, which is outside every `try` and ends the run. The
    rows a run writes are returned as a map from path to rows. */
module GfncScraper {
  import opened Wrappers
  import opened PyStrings
  import opened Decimal
  import opened AbstractScraper
  import opened GfncKeyMappings
  import opened Patterns
  import GfncFundpageScraper

  type Files = map<string, seq<seq<Cell>>>

  /** A table as the scraper reads it: for each `tr`, the texts of its `td` cells. */
  type Table = seq<seq<string>>

  /** `[[col.text.strip() for col in row.findAll('td')] for row in table.findAll('tr')]`: the
      texts are unicode, so `strip` removes Unicode whitespace. */
  function Stripped(t: Table): (r: Table)
    ensures |r| == |t|
    ensures forall i :: 0 <= i < |t| ==> |r[i]| == |t[i]| && forall j :: 0 <= j < |t[i]| ==> r[i][j] == UnicodeStrip(t[i][j])
  {
    seq(|t|, i requires 0 <= i < |t| => seq(|t[i]|, j requires 0 <= j < |t[i]| => UnicodeStrip(t[i][j])))
  }

  predicate Distinct(names: seq<string>) {
    forall i, j :: 0 <= i < j < |names| ==> names[i] != names[j]
  }

  /** `dict(zip(names, values))` for distinct names: the pairs up to the shorter length. */
  function Zip(names: seq<string>, values: seq<Cell>): (r: Record)
    requires Distinct(names)
    ensures forall k :: k in r ==> k in names
    ensures forall i :: 0 <= i < |names| ==> (names[i] in r <==> i < |values|)
    ensures forall i :: 0 <= i < |names| && i < |values| ==> r[names[i]] == values[i]
  {
    map i | 0 <= i < |names| && i < |values| :: names[i] := values[i]
  }

  // ---------------------------------------------------------------------------------------
  // get_profile

  const ManagementFields: seq<string> :=
    ["total_assets", "front_load", "deferred_load", "expense_ratio", "management_fees", "fund_family"]

  const AllocationFields: seq<string> :=
    ["pct_cash", "pct_stock", "pct_bonds", "pct_preferred", "pct_convertible", "pct_other"]

  /** The header of the profile file. */
  const ProfileFields: seq<string> := ["ticker"] + ManagementFields + AllocationFields

  /** The header names thirteen distinct columns, and the asset classes fill exactly the six
      allocation columns. */
  lemma ProfileFieldsShape()
    ensures |ProfileFields| == 13 && Distinct(ProfileFields)
    ensures Distinct(ManagementFields) && Distinct(AllocationFields)
    ensures forall f :: f in ManagementFields ==> f !in AllocationFields && f != "ticker"
    ensures forall f :: f in AllocationFields ==> f != "ticker"
    ensures forall f :: f in AllocationFields ==> exists a :: a in AllocationsKeymap && AllocationsKeymap[a] == f
  {
    FieldGroupsDisjoint();
    AllocationsCovered();
  }

  lemma FieldGroupsDisjoint()
    ensures Distinct(ManagementFields) && Distinct(AllocationFields)
    ensures forall f :: f in ManagementFields ==> f !in AllocationFields && f != "ticker"
    ensures forall f :: f in AllocationFields ==> f != "ticker"
  {
  }

  lemma AllocationsCovered()
    ensures forall f :: f in AllocationFields ==> exists a :: a in AllocationsKeymap && AllocationsKeymap[a] == f
  {
    assert AllocationsKeymap["Cash"] == "pct_cash";
    assert AllocationsKeymap["Stocks"] == "pct_stock";
    assert AllocationsKeymap["Bonds"] == "pct_bonds";
    assert AllocationsKeymap["Preferred"] == "pct_preferred";
    assert AllocationsKeymap["Convertible"] == "pct_convertible";
    assert AllocationsKeymap["Other"] == "pct_other";
  }

  /** Every asset class fills an allocation column. */
  lemma KeymapTargets()
    ensures forall a :: a in AllocationsKeymap ==> AllocationsKeymap[a] in AllocationFields
  {
  }

  /** A `div` of class "sector" of the profile column: the `.table` of each of its
      "subsector" divisions, and its own `.table` (`None` where there is no table). */
  datatype Sector = Sector(subsectors: seq<Option<Table>>, table: Option<Table>)

  /** The profile column of a saved page: its "sector" divisions, or `None` when one of the
      `[0]` steps leading there finds nothing (IndexError, caught). */
  type ProfileView = Option<seq<Sector>>

  /** `[P[1] for P in management_data_raw]` with "-" read as "": IndexError when a row has
      fewer than two cells. */
  function ManagementValues(raw: Table): (r: Result<seq<string>>)
    ensures r.Ok? <==> forall i :: 0 <= i < |raw| ==> |raw[i]| >= 2
    ensures r.Err? ==> r.error == IndexError
    ensures r.Ok? ==> |r.value| == |raw|
  {
    if forall i :: 0 <= i < |raw| ==> |raw[i]| >= 2 then
      Ok(seq(|raw|, i requires 0 <= i < |raw| => if raw[i][1] == "-" then "" else raw[i][1]))
    else Err(IndexError)
  }

  /** The character the total-assets rule deletes before reading the number: the unit "M" or
      "B" when the field ends with one, otherwise the thousands separator ",". */
  function AssetsCut(s: string): (c: char)
    ensures c in {'M', 'B', ','}
    ensures c == 'M' <==> EndsWith(s, 'M')
  {
    if EndsWith(s, 'M') then 'M' else if EndsWith(s, 'B') then 'B' else ','
  }

  /** The number read after deleting `cut`, in millions: "M" is millions already, "B" is
      billions (times 1000), and a bare amount is dollars (divided by a million). */
  function InMillions(x: real, cut: char): real {
    if cut == 'M' then x else if cut == 'B' then 1000.0 * x else x / 1000000.0
  }

  /** The total-assets rule: "M" means millions and every "M" is removed, "B" means billions
      (times 1000, still in millions) and every "B" is removed, an empty field is the missing
      value -1, and anything else is dollars with thousands separators, divided by a million.
      The text is unicode: `float` raises UnicodeEncodeError on a character its codec
      refuses and ValueError on a text it does not read. The source tests the units before
      the empty field; the empty field ends with neither, so testing it first is the same. */
  function TotalAssets(s: string): (r: Result<real>)
    ensures s == "" ==> r == Ok(-1.0)
    ensures r.Err? ==> r.error in {ValueError, UnicodeEncodeError}
  {
    if s == "" then Ok(-1.0)
    else
      match UnicodeFloat(DeleteChars(s, {AssetsCut(s)}))
      case Ok(x) => Ok(InMillions(x, AssetsCut(s)))
      case Err(e) => Err(e)
  }

  /** The field raises UnicodeEncodeError exactly when it holds a character the codec of
      `float` refuses: the units and separators it deletes are ASCII. */
  lemma TotalAssetsRefused(s: string)
    ensures TotalAssets(s) == Err(UnicodeEncodeError) <==> Refused(s)
  {
    if s != "" {
      RefusedDeleting(s, {AssetsCut(s)});
      UnicodeFloatRefused(DeleteChars(s, {AssetsCut(s)}));
    }
  }

  /** A numeral followed by "M" is that many millions. */
  lemma TotalAssetsMillions(n: nat)
    ensures TotalAssets(NatToString(n) + "M") == Ok(n as real)
  {
    UnitDeleted(n, 'M');
  }

  /** A numeral followed by "B" is a thousand times that many millions. */
  lemma TotalAssetsBillions(n: nat)
    ensures TotalAssets(NatToString(n) + "B") == Ok(1000.0 * n as real)
  {
    UnitDeleted(n, 'B');
  }

  /** A bare numeral is dollars, counted in millions. */
  lemma TotalAssetsDollars(ds: string)
    requires ds != "" && AllDigits(ds)
    ensures TotalAssets(ds) == Ok(DigitsValue(ds) as real / 1000000.0)
  {
    assert AssetsCut(ds) == ',' by {
      assert IsDigit(ds[|ds| - 1]);
    }
    DeleteCharsNone(ds, {','});
    UnicodeFloatNumeral(ds);
  }

  lemma UnitDeleted(n: nat, unit: char)
    requires unit == 'M' || unit == 'B'
    ensures var t := NatToString(n) + [unit];
      AssetsCut(t) == unit && DeleteChars(t, {unit}) == NatToString(n)
      && UnicodeFloat(NatToString(n)) == Ok(n as real)
  {
    var ds := NatToString(n);
    DeleteCharsConcat(ds, [unit], {unit});
    DeleteCharsNone(ds, {unit});
    UnicodeFloatRoundTrip(n);
  }

  /** `x.replace("%", "") if x != "" else x` */
  function NoPercent(x: string): (r: string)
    ensures '%' !in r
  {
    if x != "" then DeleteCharsMembers(x, {'%'}); DeleteChars(x, {'%'}) else x
  }

  /** `management_data_clean` after its clean-up: the total assets as a number, then the load
      and ratio slots 1 to 3 without '%', then the rest as scraped. */
  function ManagementCells(total: real, vals: seq<string>): (r: seq<Cell>)
    requires |vals| >= 1
    ensures |r| == |vals| && r[0] == Num(total)
    ensures forall k :: 1 <= k < |vals| ==> r[k] == Unicode(if k < 4 then NoPercent(vals[k]) else vals[k])
  {
    [Num(total)] + seq(|vals| - 1, k requires 0 <= k < |vals| - 1 =>
      Unicode(if k + 1 < 4 then NoPercent(vals[k + 1]) else vals[k + 1]))
  }

  /** `dict.fromkeys(allocation_fields, "")` */
  function EmptyAllocations(): (r: Record)
    ensures forall f :: f in r <==> f in AllocationFields
  {
    map f | f in AllocationFields :: Str("")
  }

  /** A row of the allocation table the loop accepts: three cells and a known asset class. */
  predicate GoodAllocation(row: seq<string>) {
    |row| == 3 && row[0] in AllocationsKeymap
  }

  /** The exception a rejected allocation row raises: ValueError when it does not unpack
      into three cells, KeyError when its asset class is unknown. */
  function AllocationError(row: seq<string>): (e: PyError)
    ensures e == ValueError || e == KeyError
  {
    if |row| != 3 then ValueError else KeyError
  }

  /** The allocation loop after the rows `rows`: the field of each row's asset class holds its
      percentage without '%'; the first rejected row ends the loop with its exception. */
  function AllocationsAfter(rows: Table): Result<Record>
    decreases |rows|
  {
    if rows == [] then Ok(EmptyAllocations())
    else
      match AllocationsAfter(rows[..|rows| - 1])
      case Err(e) => Err(e)
      case Ok(d) =>
        var row := rows[|rows| - 1];
        if !GoodAllocation(row) then Err(AllocationError(row))
        else Ok(d[AllocationsKeymap[row[0]] := Unicode(DeleteChars(row[1], {'%'}))])
  }

  /** Row `i` is an accepted row that fills field `f`. */
  predicate Fills(rows: Table, i: int, f: string) {
    0 <= i < |rows| && GoodAllocation(rows[i]) && AllocationsKeymap[rows[i][0]] == f
  }

  /** `c` is what the loop leaves in field `f`: "" when no row fills it, otherwise the
      percentage of the last row that does. */
  ghost predicate LastFill(rows: Table, f: string, c: Cell) {
    (c == Str("") && forall i :: 0 <= i < |rows| ==> !Fills(rows, i, f)) ||
    (exists i :: Fills(rows, i, f) && c == Unicode(DeleteChars(rows[i][1], {'%'})) &&
       forall j :: i < j < |rows| ==> !Fills(rows, j, f))
  }

  /** The first rejected row raised `e`. */
  ghost predicate FirstRejected(rows: Table, e: PyError) {
    exists i :: 0 <= i < |rows| && !GoodAllocation(rows[i]) && e == AllocationError(rows[i]) &&
      forall j :: 0 <= j < i ==> GoodAllocation(rows[j])
  }

  /** The loop completes exactly when every row is accepted, and then every allocation field
      is present and holds the percentage of the last row of its asset class, or "" when the
      fund has none; otherwise it raises what the first rejected row raises. */
  lemma AllocationsSpec(rows: Table)
    ensures AllocationsAfter(rows).Ok? <==> forall i :: 0 <= i < |rows| ==> GoodAllocation(rows[i])
    ensures AllocationsAfter(rows).Err? ==> FirstRejected(rows, AllocationsAfter(rows).error)
    ensures AllocationsAfter(rows).Ok? ==>
      var d := AllocationsAfter(rows).value;
      (forall f :: f in d <==> f in AllocationFields) &&
      forall f :: f in AllocationFields ==> LastFill(rows, f, d[f])
  {
    AllocationsOutcome(rows);
    if AllocationsAfter(rows).Ok? {
      AllocationsContent(rows);
    }
  }

  lemma {:induction false} AllocationsOutcome(rows: Table)
    ensures AllocationsAfter(rows).Ok? <==> forall i :: 0 <= i < |rows| ==> GoodAllocation(rows[i])
    ensures AllocationsAfter(rows).Err? ==> FirstRejected(rows, AllocationsAfter(rows).error)
    decreases |rows|
  {
    if rows != [] {
      var front := rows[..|rows| - 1];
      var last := |rows| - 1;
      AllocationsOutcome(front);
      assert forall i :: 0 <= i < |front| ==> front[i] == rows[i];
      if AllocationsAfter(front).Err? {
        var e := AllocationsAfter(front).error;
        var i :| 0 <= i < |front| && !GoodAllocation(front[i]) && e == AllocationError(front[i]) &&
          forall j :: 0 <= j < i ==> GoodAllocation(front[j]);
        assert !GoodAllocation(rows[i]);
        assert FirstRejected(rows, e);
      } else if !GoodAllocation(rows[last]) {
        assert FirstRejected(rows, AllocationError(rows[last]));
      }
    }
  }

  lemma {:induction false} AllocationsContent(rows: Table)
    requires AllocationsAfter(rows).Ok?
    ensures var d := AllocationsAfter(rows).value;
      (forall f :: f in d <==> f in AllocationFields) &&
      forall f :: f in AllocationFields ==> LastFill(rows, f, d[f])
    decreases |rows|
  {
    if rows != [] {
      var front := rows[..|rows| - 1];
      var last := |rows| - 1;
      AllocationsContent(front);
      var d := AllocationsAfter(front).value;
      KeymapTargets();
      var row := rows[last];
      var g := AllocationsKeymap[row[0]];
      var d' := d[g := Unicode(DeleteChars(row[1], {'%'}))];
      assert AllocationsAfter(rows) == Ok(d');
      forall f | f in AllocationFields
        ensures LastFill(rows, f, d'[f])
      {
        if f == g {
          assert Fills(rows, last, f);
        } else {
          LastFillExtends(rows, f, d[f]);
        }
      }
    }
  }

  /** A last row that does not fill `f` leaves what the earlier rows left there. */
  lemma LastFillExtends(rows: Table, f: string, c: Cell)
    requires rows != [] && !Fills(rows, |rows| - 1, f)
    requires LastFill(rows[..|rows| - 1], f, c)
    ensures LastFill(rows, f, c)
  {
    var front := rows[..|rows| - 1];
    assert forall i :: 0 <= i < |front| ==> front[i] == rows[i];
    if c == Str("") && forall i :: 0 <= i < |front| ==> !Fills(front, i, f) {
      assert forall i :: 0 <= i < |rows| - 1 ==> !Fills(rows, i, f) by {
        forall i | 0 <= i < |rows| - 1 ensures !Fills(rows, i, f) {
          assert !Fills(front, i, f);
        }
      }
    } else {
      var i :| Fills(front, i, f) && c == Unicode(DeleteChars(front[i][1], {'%'})) &&
        forall j :: i < j < |front| ==> !Fills(front, j, f);
      assert Fills(rows, i, f);
      forall j | i < j < |rows| ensures !Fills(rows, j, f) {
        if j < |front| {
          assert !Fills(front, j, f);
        }
      }
    }
  }

  /** What the management update puts in a profile: only management fields, the total
      assets among them as a number, the others as text, the loads and the expense ratio
      without '%'. */
  predicate ManagementShaped(m: Record) {
    (forall k :: k in m ==> k in ManagementFields) &&
    "total_assets" in m && m["total_assets"].Num? &&
    (forall k :: k in m && k != "total_assets" ==> m[k].Str?) &&
    (forall k :: k in m && k in ManagementFields[1..4] ==> '%' !in m[k].s)
  }

  /** The management fields of a profile from the subsector table `mt`: `None` when the
      IndexError of a row without a value cell, or of an empty table, is caught; ValueError
      when the total does not read, UnicodeEncodeError when it holds a character `float`
      cannot encode. */
  function ManagementOf(mt: Table): (r: Result<Option<Record>>)
    ensures r.Err? ==> r.error in {ValueError, UnicodeEncodeError}
    ensures r.Ok? && r.value.Some? ==> ManagementShaped(r.value.value)
  {
    match ManagementValues(Stripped(mt))
    case Err(_) => Ok(None)
    case Ok(vals) =>
      if vals == [] then Ok(None)
      else
        match TotalAssets(vals[0])
        case Err(e) => Err(e)
        case Ok(total) =>
          ManagementZipShaped(total, vals);
          Ok(Some(Zip(ManagementFields, ManagementCells(total, vals))))
  }

  lemma ManagementFieldsDistinct()
    ensures Distinct(ManagementFields) && ManagementFields[0] == "total_assets"
  {
  }

  lemma ManagementZipShaped(total: real, vals: seq<string>)
    requires |vals| >= 1
    ensures Distinct(ManagementFields)
    ensures ManagementShaped(Zip(ManagementFields, ManagementCells(total, vals)))
  {
    ManagementFieldsDistinct();
    var cells := ManagementCells(total, vals);
    ZipShaped(ManagementFields, cells);
  }

  /** Zipping distinct names, the first "total_assets", with a number and then text cells,
      the second to fourth without '%', gives a record of that shape. */
  lemma ZipShaped(names: seq<string>, cells: seq<Cell>)
    requires Distinct(names) && |names| >= 4 && names[0] == "total_assets" && |cells| >= 1
    requires cells[0].Num? && forall i :: 1 <= i < |cells| ==> cells[i].Str?
    requires forall i :: 1 <= i < 4 && i < |cells| ==> '%' !in cells[i].s
    ensures var m := Zip(names, cells);
      && (forall k :: k in m ==> k in names)
      && "total_assets" in m && m["total_assets"].Num?
      && (forall k :: k in m && k != "total_assets" ==> m[k].Str?)
      && (forall k :: k in m && k in names[1..4] ==> '%' !in m[k].s)
  {
    var m := Zip(names, cells);
    forall k | k in m && k != "total_assets" ensures m[k].Str? {
      var i :| 0 <= i < |names| && names[i] == k;
      assert i != 0 && i < |cells|;
    }
    forall k | k in m && k in names[1..4] ensures '%' !in m[k].s {
      var i :| 0 <= i < 3 && names[1..4][i] == k;
      assert names[i + 1] == k && i + 1 < |cells|;
    }
  }


  /** The allocation fields of a profile with sectors `sectors`: `None` when there is no
      allocation sector (IndexError) or the KeyError of an unknown asset class is caught;
      AttributeError when the sector has no table and ValueError when a row does not unpack.
      When present, all six fields are, each holding the percentage of the last row of its
      asset class without '%', or "". */
  function AllocationOf(sectors: seq<Sector>): (r: Result<Option<Record>>)
    ensures r.Err? ==> r.error in {AttributeError, ValueError}
    ensures r.Ok? && r.value.Some? ==>
      |sectors| >= 4 && sectors[3].table.Some? &&
      var a, rows := r.value.value, Stripped(sectors[3].table.value);
      (forall f :: f in a <==> f in AllocationFields) &&
      forall f :: f in AllocationFields ==> LastFill(rows, f, a[f])
  {
    if |sectors| < 4 then Ok(None)
    else
      match sectors[3].table
      case None => Err(AttributeError)
      case Some(at) =>
        AllocationsSpec(Stripped(at));
        match AllocationsAfter(Stripped(at))
        case Ok(alloc) => Ok(Some(alloc))
        case Err(e) => if e == KeyError then Ok(None) else Err(e)
  }

  /** The record `get_profile` appends for one ticker, or the exception that escapes: the
      ticker, alone when the profile column, its third sector or that sector's subsector is
      missing (IndexError); a subsector without a table escapes with AttributeError; then
      the management fields and, when they are in, the allocation fields. */
  function ProfileRecord(ticker: string, view: ProfileView): Result<Record> {
    var base := map["ticker" := Str(ticker)];
    match view
    case None => Ok(base)
    case Some(sectors) =>
      if |sectors| < 3 || sectors[2].subsectors == [] then Ok(base)
      else
        match sectors[2].subsectors[0]
        case None => Err(AttributeError)
        case Some(mt) =>
          match ManagementOf(mt)
          case Err(e) => Err(e)
          case Ok(None) => Ok(base)
          case Ok(Some(m)) =>
            match AllocationOf(sectors)
            case Err(e) => Err(e)
            case Ok(None) => Ok(base + m)
            case Ok(Some(a)) => Ok(base + m + a)
  }

  /** The allocation loop of `get_profile`. */
  method AllocationLoop(rows: Table) returns (res: Result<Record>)
    ensures res == AllocationsAfter(rows)
  {
    var allocations := EmptyAllocations();
    var i := 0;
    while i < |rows|
      invariant 0 <= i <= |rows|
      invariant AllocationsAfter(rows[..i]) == Ok(allocations)
    {
      var row := rows[i];
      assert rows[..i + 1][..i] == rows[..i];
      if |row| != 3 {
        AllocationsStuck(rows, i + 1);
        return Err(ValueError);
      }
      if row[0] !in AllocationsKeymap {
        AllocationsStuck(rows, i + 1);
        return Err(KeyError);
      }
      allocations := allocations[AllocationsKeymap[row[0]] := Unicode(DeleteChars(row[1], {'%'}))];
      i := i + 1;
    }
    assert rows[..i] == rows;
    return Ok(allocations);
  }

  /** The scraping step of `get_profile` for one page. */
  method ScrapeProfile(ticker: string, view: ProfileView) returns (res: Result<Record>)
    ensures res == ProfileRecord(ticker, view)
  {
    var profile: Record := map["ticker" := Str(ticker)];
    if view.None? || |view.value| < 3 || view.value[2].subsectors == [] {
      return Ok(profile);
    }
    var sectors := view.value;
    if sectors[2].subsectors[0].None? {
      return Err(AttributeError);
    }
    var management := ManagementOf(sectors[2].subsectors[0].value);
    if management.Err? {
      return Err(management.error);
    }
    if management.value.None? {
      return Ok(profile);
    }
    profile := profile + management.value.value;
    if |sectors| < 4 {
      return Ok(profile);
    }
    if sectors[3].table.None? {
      return Err(AttributeError);
    }
    var allocations := AllocationLoop(Stripped(sectors[3].table.value));
    if allocations.Err? {
      if allocations.error == KeyError {
        return Ok(profile);
      }
      return Err(allocations.error);
    }
    return Ok(profile + allocations.value);
  }

  /** Once a prefix of the allocation rows has raised, the whole loop raises the same. */
  lemma {:induction false} AllocationsStuck(rows: Table, n: nat)
    requires n <= |rows| && AllocationsAfter(rows[..n]).Err?
    ensures AllocationsAfter(rows) == AllocationsAfter(rows[..n])
    decreases |rows|
  {
    if n < |rows| {
      var front := rows[..|rows| - 1];
      assert front[..n] == rows[..n];
      AllocationsStuck(front, n);
    } else {
      assert rows[..n] == rows;
    }
  }

  /** A profile record as `get_profile` appends it: the ticker, no key outside the header,
      the total assets (when present) as a number and every other value as text, no '%' in
      the loads, the expense ratio or the allocations, and the six allocation fields all
      present or all absent. */
  predicate ProfileShaped(ticker: string, r: Record) {
    "ticker" in r && r["ticker"] == Str(ticker) && FitsHeader(r, ProfileFields) &&
    (forall k :: k in r && k != "total_assets" ==> r[k].Str?) &&
    ("total_assets" in r ==> r["total_assets"].Num?) &&
    (forall k :: k in r && (k in ManagementFields[1..4] || k in AllocationFields) ==> '%' !in r[k].s) &&
    ((forall f :: f in AllocationFields ==> f in r) || (forall f :: f in AllocationFields ==> f !in r))
  }

  /** Only AttributeError, ValueError and UnicodeEncodeError escape the profile step, and a
      record that is appended has the profile shape. */
  lemma ProfileRecordSpec(ticker: string, view: ProfileView)
    ensures ProfileRecord(ticker, view).Err? ==>
      ProfileRecord(ticker, view).error in {AttributeError, ValueError, UnicodeEncodeError}
    ensures ProfileRecord(ticker, view).Ok? ==> ProfileShaped(ticker, ProfileRecord(ticker, view).value)
  {
    var base := map["ticker" := Str(ticker)];
    if view.Some? && |view.value| >= 3 && view.value[2].subsectors != [] && view.value[2].subsectors[0].Some? {
      var sectors := view.value;
      var mo := ManagementOf(sectors[2].subsectors[0].value);
      if mo.Ok? && mo.value.Some? {
        var ao := AllocationOf(sectors);
        if ao.Ok? && ao.value.None? {
          ManagedShaped(ticker, mo.value.value);
        } else if ao.Ok? {
          var a := ao.value.value;
          forall f | f in AllocationFields ensures a[f].Str? && '%' !in a[f].s {
            AllocationPercentFree(Stripped(sectors[3].table.value), f, a[f]);
          }
          AllocatedShaped(ticker, mo.value.value, a);
        }
      } else {
        BaseShaped(ticker);
      }
    } else {
      BaseShaped(ticker);
    }
  }

  lemma BaseShaped(ticker: string)
    ensures ProfileShaped(ticker, map["ticker" := Str(ticker)])
  {
    ProfileFieldsShape();
  }

  lemma ManagedShaped(ticker: string, m: Record)
    requires ManagementShaped(m)
    ensures ProfileShaped(ticker, map["ticker" := Str(ticker)] + m)
  {
    ProfileFieldsShape();
    var r := map["ticker" := Str(ticker)] + m;
    forall f | f in AllocationFields ensures f !in r {
      assert f !in ManagementFields;
    }
  }

  lemma AllocatedShaped(ticker: string, m: Record, a: Record)
    requires ManagementShaped(m)
    requires forall f :: f in a <==> f in AllocationFields
    requires forall f :: f in a ==> a[f].Str? && '%' !in a[f].s
    ensures ProfileShaped(ticker, map["ticker" := Str(ticker)] + m + a)
  {
    ProfileFieldsShape();
    var r := map["ticker" := Str(ticker)] + m + a;
    assert "ticker" !in m && "ticker" !in a;
    assert "total_assets" in ManagementFields;
    assert "total_assets" !in a;
    forall k | k in r ensures k in ProfileFields && (k != "total_assets" ==> r[k].Str?) {
      UnionAt(ticker, m, a, k);
    }
    forall k | k in r && (k in ManagementFields[1..4] || k in AllocationFields) ensures '%' !in r[k].s {
      UnionAt(ticker, m, a, k);
    }
  }

  /** Where a value of the merged profile comes from. */
  lemma UnionAt(ticker: string, m: Record, a: Record, k: string)
    requires k in map["ticker" := Str(ticker)] + m + a
    ensures var r := map["ticker" := Str(ticker)] + m + a;
      r[k] == if k in a then a[k] else if k in m then m[k] else Str(ticker)
    ensures k in a || k in m || k == "ticker"
  {
  }

  lemma AllocationPercentFree(rows: Table, f: string, c: Cell)
    requires LastFill(rows, f, c)
    ensures c.Str? && '%' !in c.s
  {
    if c != Str("") {
      var i :| Fills(rows, i, f) && c == Unicode(DeleteChars(rows[i][1], {'%'}));
      DeleteCharsMembers(rows[i][1], {'%'});
    }
  }

  /** A management table whose rows all have a value cell, with a total that reads, fills the
      management fields by position: the total as a number of millions, the loads and the
      expense ratio without '%', the rest as on the page, "-" read as "". */
  lemma ManagementCellsSpec(mt: Table)
    requires ManagementOf(mt).Ok? && ManagementOf(mt).value.Some?
    ensures var raw, m := Stripped(mt), ManagementOf(mt).value.value;
      raw != [] && (forall i :: 0 <= i < |raw| ==> |raw[i]| >= 2) &&
      forall i :: 0 <= i < 6 ==>
        (ManagementFields[i] in m <==> i < |raw|) &&
        (i < |raw| ==>
          var v := if raw[i][1] == "-" then "" else raw[i][1];
          m[ManagementFields[i]] ==
            if i == 0 then Num(TotalAssets(v).value) else Unicode(if i < 4 then NoPercent(v) else v))
  {
    ProfileFieldsShape();
  }

  // ---------------------------------------------------------------------------------------
  // The profile run

  function ProfileRows(pages: map<string, ProfileView>): TickerRow {
    t => if t in pages then Some(ProfileRecord(t, pages[t])) else Some(Err(IOError))
  }

  /** `get_profile(outputfile)`: the records in ticker order, written under the header. */
  function ProfileRun(tickers: seq<string>, pages: map<string, ProfileView>, output: string)
    : Result<Files>
  {
    match Collected(tickers, ProfileRows(pages))
    case Err(e) => Err(e)
    case Ok(list) =>
      match CsvTable(ProfileFields, list)
      case Err(e) => Err(e)
      case Ok(table) => Ok(map[output := table])
  }

  method CollectProfiles(tickers: seq<string>, pages: map<string, ProfileView>)
    returns (res: Result<seq<Record>>)
    ensures res == Collected(tickers, ProfileRows(pages))
  {
    res := Collect(tickers, ProfileRows(pages));
  }

  method GetProfile(tickers: seq<string>, pages: map<string, ProfileView>, output: string)
    returns (res: Result<Files>)
    ensures res == ProfileRun(tickers, pages, output)
  {
    var profileList := CollectProfiles(tickers, pages);
    if profileList.Err? {
      return Err(profileList.error);
    }
    var table := WriteCsv(ProfileFields, profileList.value);
    if table.Err? {
      return Err(table.error);
    }
    return Ok(map[output := table.value]);
  }

  /** Every ticker has a page, and no page raises an escaping exception. */
  predicate ProfilesRead(tickers: seq<string>, pages: map<string, ProfileView>) {
    forall i :: 0 <= i < |tickers| ==> tickers[i] in pages && ProfileRecord(tickers[i], pages[tickers[i]]).Ok?
  }

  /** The profile run succeeds exactly when every ticker has a page, no page raises an
      escaping exception and the writer can encode every record; it then writes the header
      and one row per ticker, in order. When every page is read but some value is not ASCII,
      the writer raises UnicodeEncodeError. A failing run raises IOError, AttributeError,
      ValueError or UnicodeEncodeError. */
  lemma ProfileRunSpec(tickers: seq<string>, pages: map<string, ProfileView>, output: string)
    ensures ProfileRun(tickers, pages, output).Ok? <==>
      ProfilesRead(tickers, pages) &&
      forall i :: 0 <= i < |tickers| ==> Encodable(ProfileRecord(tickers[i], pages[tickers[i]]).value)
    ensures ProfileRun(tickers, pages, output).Err? ==>
      ProfileRun(tickers, pages, output).error in {IOError, AttributeError, ValueError, UnicodeEncodeError}
    ensures ProfileRun(tickers, pages, output).Err? && ProfilesRead(tickers, pages) ==>
      ProfileRun(tickers, pages, output).error == UnicodeEncodeError
    ensures ProfileRun(tickers, pages, output).Ok? ==>
      var table := ProfileRun(tickers, pages, output).value[output];
      |table| == |tickers| + 1 && table[0] == HeaderRow(ProfileFields) &&
      forall i :: 0 <= i < |tickers| ==>
        table[i + 1] == RowOf(ProfileFields, ProfileRecord(tickers[i], pages[tickers[i]]).value)
  {
    ProfileCollected(tickers, pages);
  }

  /** The ticker loop gives one record per ticker, in ticker order, exactly when every page
      is read; each record is the one read from that ticker's page and carries only output
      fields. A loop that stops raises IOError, or what reading a page raises. */
  lemma ProfileCollected(tickers: seq<string>, pages: map<string, ProfileView>)
    ensures Collected(tickers, ProfileRows(pages)).Ok? <==> ProfilesRead(tickers, pages)
    ensures Collected(tickers, ProfileRows(pages)).Err? ==>
      Collected(tickers, ProfileRows(pages)).error in {IOError, AttributeError, ValueError, UnicodeEncodeError}
    ensures Collected(tickers, ProfileRows(pages)).Ok? ==>
      var list := Collected(tickers, ProfileRows(pages)).value;
      |list| == |tickers| &&
      forall i :: 0 <= i < |tickers| ==>
        tickers[i] in pages && ProfileRecord(tickers[i], pages[tickers[i]]) == Ok(list[i])
        && FitsHeader(list[i], ProfileFields)
  {
    var row := ProfileRows(pages);
    CollectedRows(tickers, row);
    CollectedEvery(tickers, row);
    if Collected(tickers, row).Ok? {
      var list := Collected(tickers, row).value;
      forall i | 0 <= i < |tickers|
        ensures tickers[i] in pages && ProfileRecord(tickers[i], pages[tickers[i]]) == Ok(list[i])
        ensures FitsHeader(list[i], ProfileFields)
      {
        assert !Escapes(row, tickers[i]);
        ProfileRecordSpec(tickers[i], pages[tickers[i]]);
      }
    } else {
      var e := Collected(tickers, row).error;
      var i :| 0 <= i < |tickers| && row(tickers[i]) == Some(Err(e));
      if tickers[i] in pages {
        ProfileRecordSpec(tickers[i], pages[tickers[i]]);
      }
    }
  }

  // ---------------------------------------------------------------------------------------
  // get_risk

  /** The risk statistics, one row per statistic and one column per period (1, 3, 5 and 10
      years). */
  const RiskGrid: seq<seq<string>> := [
    ["alpha1", "alpha3", "alpha5", "alpha10"],
    ["beta1", "beta3", "beta5", "beta10"],
    ["MAR1", "MAR3", "MAR5", "MAR10"],
    ["R2_1", "R2_3", "R2_5", "R2_10"],
    ["SD1", "SD3", "SD5", "SD10"],
    ["sharpe1", "sharpe3", "sharpe5", "sharpe10"]
  ]

  /** `reduce(lambda x, y: x + y, rows)`: the rows joined in order. */
  function Concat(rows: seq<seq<string>>): (r: seq<string>)
    ensures forall x :: x in r <==> exists i :: 0 <= i < |rows| && x in rows[i]
    decreases |rows|
  {
    if rows == [] then []
    else
      var r := Concat(rows[..|rows| - 1]) + rows[|rows| - 1];
      assert forall i :: 0 <= i < |rows| - 1 ==> rows[..|rows| - 1][i] == rows[i];
      r
  }

  /** The header of the risk file: the ticker, then the grid row by row. */
  const RiskFields: seq<string> := ["ticker"] + Concat(RiskGrid)

  /** The header has 25 columns, the ticker first and then the grid row after row. */
  lemma RiskFieldsShape()
    ensures |RiskGrid| == 6 && forall i :: 0 <= i < 6 ==> |RiskGrid[i]| == 4 && Distinct(RiskGrid[i])
    ensures |RiskFields| == 25 && RiskFields[0] == "ticker"
    ensures forall i, j :: 0 <= i < 6 && 0 <= j < 4 ==> RiskFields[1 + 4 * i + j] == RiskGrid[i][j]
  {
    RiskFieldsListed();
  }

  lemma RiskFieldsListed()
    ensures RiskFields == ["ticker",
      "alpha1", "alpha3", "alpha5", "alpha10", "beta1", "beta3", "beta5", "beta10",
      "MAR1", "MAR3", "MAR5", "MAR10", "R2_1", "R2_3", "R2_5", "R2_10",
      "SD1", "SD3", "SD5", "SD10", "sharpe1", "sharpe3", "sharpe5", "sharpe10"]
  {
    ConcatSix(RiskGrid);
  }

  /** Six rows joined are the rows one after the other. */
  lemma ConcatSix(g: seq<seq<string>>)
    requires |g| == 6
    ensures Concat(g) == g[0] + g[1] + g[2] + g[3] + g[4] + g[5]
  {
    assert g[..1][..0] == g[..0];
    assert g[..2][..1] == g[..1];
    assert g[..3][..2] == g[..2];
    assert g[..4][..3] == g[..3];
    assert g[..5][..4] == g[..4];
    assert g[..6][..5] == g[..5];
    assert g[..6] == g;
    assert Concat(g[..1]) == g[0];
    assert Concat(g[..2]) == g[0] + g[1];
    assert Concat(g[..3]) == g[0] + g[1] + g[2];
    assert Concat(g[..4]) == g[0] + g[1] + g[2] + g[3];
    assert Concat(g[..5]) == g[0] + g[1] + g[2] + g[3] + g[4];
  }

  /** No statistic name occurs twice in the grid: the rows differ in their first letter,
      and the names of one row are distinct. */
  lemma RiskGridInjective()
    ensures forall i, j, i', j' ::
      (0 <= i < 6 && 0 <= j < 4 && 0 <= i' < 6 && 0 <= j' < 4 && RiskGrid[i][j] == RiskGrid[i'][j'])
      ==> i == i' && j == j'
    ensures forall i, j :: 0 <= i < 6 && 0 <= j < 4 ==> RiskGrid[i][j] in RiskFields && RiskGrid[i][j] != "ticker"
  {
    RiskFieldsShape();
    var initials := "abMRSs";
    assert forall i, j :: 0 <= i < 6 && 0 <= j < 4 ==> RiskGrid[i][j] != [] && RiskGrid[i][j][0] == initials[i];
    forall i, j | 0 <= i < 6 && 0 <= j < 4 ensures RiskGrid[i][j] in RiskFields {
      assert RiskFields[1 + 4 * i + j] == RiskGrid[i][j];
    }
  }

  /** The risk table of a saved page, `None` when a step leading to it finds nothing
      (IndexError) or there is no table (AttributeError); both are caught. */
  type RiskView = Option<Table>

  /** A page after `tidy_document`, which always gives it a body. The body may still hold no
      `div`: then `body.div` is None, and the call `body.div(...)` that starts the descent
      raises TypeError, which neither the risk run nor the alternate performance run
      catches. */
  datatype TidyPage<T> = NoDiv | Reached(view: T)

  /** A converted risk cell: a number, or "" for a dash. */
  predicate Plain(c: Cell) {
    c.Num? || c == Str("")
  }

  /** `float(x) if x != "-" else ""`: a dash is the empty text, anything else must read as a
      number; `float` on the unicode text raises UnicodeEncodeError or ValueError otherwise. */
  function RiskValue(x: string): (r: Result<Cell>)
    ensures r.Err? ==> r.error in {ValueError, UnicodeEncodeError}
    ensures r.Ok? ==> Plain(r.value)
  {
    if x == "-" then Ok(Str(""))
    else
      match UnicodeFloat(x)
      case Ok(v) => Ok(Num(v))
      case Err(e) => Err(e)
  }

  /** A cell reads exactly when it is a dash or `float` accepts it, and raises
      UnicodeEncodeError exactly when it holds a character the ASCII codec refuses; a dash
      reads as "" and any other cell as the number `float` gives. */
  lemma RiskValueSpec(x: string)
    ensures RiskValue(x).Ok? <==> x == "-" || UnicodeFloat(x).Ok?
    ensures RiskValue(x) == Err(UnicodeEncodeError) <==> Refused(x)
    ensures RiskValue(x).Ok? ==>
      (RiskValue(x).value == Str("") <==> x == "-") &&
      (RiskValue(x).value.Num? ==> UnicodeFloat(x) == Ok(RiskValue(x).value.x))
  {
    UnicodeFloatRefused(x);
    if x == "-" {
      assert !Unencodable(x[0]);
    }
  }

  /** Every cell after the first of the row reads. */
  predicate RowCellsRead(row: seq<string>) {
    forall j :: 1 <= j < |row| ==> RiskValue(row[j]).Ok?
  }

  /** Every cell after the first of every row reads. */
  predicate RiskCellsRead(rows: Table) {
    forall i :: 0 <= i < |rows| ==> RowCellsRead(rows[i])
  }

  /** The first row from `i` on holding a cell that does not read, or `|rows|`. */
  function FirstBadRow(rows: Table, i: nat): (k: nat)
    requires i <= |rows|
    ensures i <= k <= |rows|
    decreases |rows| - i
  {
    if i == |rows| || !RowCellsRead(rows[i]) then i else FirstBadRow(rows, i + 1)
  }

  lemma {:induction false} FirstBadRowSpec(rows: Table, i: nat)
    requires i <= |rows|
    ensures forall m :: i <= m < FirstBadRow(rows, i) ==> RowCellsRead(rows[m])
    ensures FirstBadRow(rows, i) < |rows| ==> !RowCellsRead(rows[FirstBadRow(rows, i)])
    decreases |rows| - i
  {
    if i < |rows| && RowCellsRead(rows[i]) {
      var k := FirstBadRow(rows, i + 1);
      FirstBadRowSpec(rows, i + 1);
      assert FirstBadRow(rows, i) == k;
      forall m | i <= m < k ensures RowCellsRead(rows[m]) {
        if m > i { assert i + 1 <= m < k; }
      }
    }
  }

  /** The first cell from `j` on that does not read, or `|row|`. */
  function FirstBadCell(row: seq<string>, j: nat): (k: nat)
    requires j <= |row|
    ensures j <= k <= |row|
    decreases |row| - j
  {
    if j == |row| || RiskValue(row[j]).Err? then j else FirstBadCell(row, j + 1)
  }

  lemma {:induction false} FirstBadCellSpec(row: seq<string>, j: nat)
    requires j <= |row|
    ensures forall m :: j <= m < FirstBadCell(row, j) ==> RiskValue(row[m]).Ok?
    ensures FirstBadCell(row, j) < |row| ==> RiskValue(row[FirstBadCell(row, j)]).Err?
    decreases |row| - j
  {
    if j < |row| && RiskValue(row[j]).Ok? {
      var k := FirstBadCell(row, j + 1);
      FirstBadCellSpec(row, j + 1);
      assert FirstBadCell(row, j) == k;
      forall m | j <= m < k ensures RiskValue(row[m]).Ok? {
        if m > j { assert j + 1 <= m < k; }
      }
    }
  }

  /** `[map(..., R[1:]) for R in rows]`: every cell after the first converted. The
      conversion goes row by row and cell by cell, so the first cell that does not read
      raises its exception. */
  function RiskValues(rows: Table): (r: Result<seq<seq<Cell>>>)
    ensures r.Ok? <==> RiskCellsRead(rows)
    ensures r.Err? ==> r.error in {ValueError, UnicodeEncodeError}
    ensures r.Ok? ==> forall i, j :: 0 <= i < |r.value| && 0 <= j < |r.value[i]| ==> Plain(r.value[i][j])
  {
    if RiskCellsRead(rows) then
      Ok(seq(|rows|, i requires 0 <= i < |rows| =>
        seq(if rows[i] == [] then 0 else |rows[i]| - 1, j requires 0 <= j < |rows[i]| - 1 =>
          RiskValue(rows[i][j + 1]).value)))
    else
      var i := FirstBadRow(rows, 0);
      FirstBadRowSpec(rows, 0);
      var j := FirstBadCell(rows[i], 1);
      FirstBadCellSpec(rows[i], 1);
      Err(RiskValue(rows[i][j]).error)
  }

  /** A failing conversion raises what the first cell that does not read raises, in row
      order and then cell order. */
  lemma RiskValuesFirstError(rows: Table)
    requires RiskValues(rows).Err?
    ensures exists i, j ::
      && 0 <= i < |rows| && 1 <= j < |rows[i]|
      && RiskValue(rows[i][j]) == Err(RiskValues(rows).error)
      && (forall m :: 0 <= m < i ==> RowCellsRead(rows[m]))
      && (forall n :: 1 <= n < j ==> RiskValue(rows[i][n]).Ok?)
  {
    var i := FirstBadRow(rows, 0);
    FirstBadRowSpec(rows, 0);
    var j := FirstBadCell(rows[i], 1);
    FirstBadCellSpec(rows[i], 1);
    assert RiskValue(rows[i][j]) == Err(RiskValues(rows).error);
  }

  /** Converted row `i` holds the values of the cells of row `i` after its first. */
  lemma RiskValuesSpec(rows: Table)
    requires RiskValues(rows).Ok?
    ensures var conv := RiskValues(rows).value;
      |conv| == |rows| && forall i :: 0 <= i < |rows| ==>
        |conv[i]| == (if rows[i] == [] then 0 else |rows[i]| - 1) &&
        forall j :: 0 <= j < |conv[i]| ==> Ok(conv[i][j]) == RiskValue(rows[i][j + 1])
  {
    assert RiskCellsRead(rows);
  }

  /** The update loop after its first `n` steps: statistic `i` takes the values of row `i`,
      up to four. */
  function RiskAfter(conv: seq<seq<Cell>>, n: nat): Record
    requires n <= 6 && n <= |conv|
  {
    if n == 0 then map[]
    else
      RiskRowsDistinct();
      RiskAfter(conv, n - 1) + Zip(RiskGrid[n - 1], conv[n - 1])
  }

  /** After `n` steps a statistic's field is present exactly when its row is among the first
      `n` and has a value for its period, and then holds that value. */
  lemma {:induction false} RiskAfterSpec(conv: seq<seq<Cell>>, n: nat)
    requires n <= 6 && n <= |conv|
    ensures forall k :: k in RiskAfter(conv, n) ==> k in RiskFields && k != "ticker"
    ensures forall i, j :: 0 <= i < 6 && 0 <= j < 4 ==>
      (RiskGrid[i][j] in RiskAfter(conv, n) <==> i < n && j < |conv[i]|) &&
      (i < n && j < |conv[i]| ==> RiskAfter(conv, n)[RiskGrid[i][j]] == conv[i][j])
    decreases n
  {
    if n > 0 {
      RiskAfterSpec(conv, n - 1);
      RiskAfterStep(conv, n);
    }
  }

  lemma RiskAfterStep(conv: seq<seq<Cell>>, n: nat)
    requires 0 < n <= 6 && n <= |conv|
    requires forall k :: k in RiskAfter(conv, n - 1) ==> k in RiskFields && k != "ticker"
    requires forall i, j :: 0 <= i < 6 && 0 <= j < 4 ==>
      (RiskGrid[i][j] in RiskAfter(conv, n - 1) <==> i < n - 1 && j < |conv[i]|) &&
      (i < n - 1 && j < |conv[i]| ==> RiskAfter(conv, n - 1)[RiskGrid[i][j]] == conv[i][j])
    ensures forall k :: k in RiskAfter(conv, n) ==> k in RiskFields && k != "ticker"
    ensures forall i, j :: 0 <= i < 6 && 0 <= j < 4 ==>
      (RiskGrid[i][j] in RiskAfter(conv, n) <==> i < n && j < |conv[i]|) &&
      (i < n && j < |conv[i]| ==> RiskAfter(conv, n)[RiskGrid[i][j]] == conv[i][j])
  {
    RiskGridInjective();
    RiskRowsDistinct();
    var before := RiskAfter(conv, n - 1);
    var z := Zip(RiskGrid[n - 1], conv[n - 1]);
    assert RiskAfter(conv, n) == before + z;
    forall k | k in z ensures k in RiskFields && k != "ticker" {
      var j :| 0 <= j < 4 && RiskGrid[n - 1][j] == k;
    }
    forall i, j | 0 <= i < 6 && 0 <= j < 4
      ensures (RiskGrid[i][j] in before + z <==> i < n && j < |conv[i]|) &&
        (i < n && j < |conv[i]| ==> (before + z)[RiskGrid[i][j]] == conv[i][j])
    {
      if i != n - 1 {
        var last := RiskGrid[n - 1];
        assert RiskGrid[i][j] !in last by {
          forall j' | 0 <= j' < 4 ensures last[j'] != RiskGrid[i][j] {
          }
        }
      }
    }
  }

  lemma RiskRowsDistinct()
    ensures |RiskGrid| == 6 && forall i :: 0 <= i < 6 ==> |RiskGrid[i]| == 4 && Distinct(RiskGrid[i])
  {
  }

  /** The record `get_risk` appends for one ticker: the ticker, then the statistics read from
      the rows between the header row and the last row; a cell that does not read escapes
      with ValueError. */
  function RiskRecord(ticker: string, view: RiskView): Result<Record> {
    var base := map["ticker" := Str(ticker)];
    match view
    case None => Ok(base)
    case Some(t) =>
      match RiskValues(RiskBody(t))
      case Err(e) => Err(e)
      case Ok(conv) => Ok(base + RiskAfter(conv, RiskSteps(conv)))
  }

  /** The stripped rows between the header row and the last row. */
  function RiskBody(t: Table): (body: Table)
    ensures |body| == if |t| < 2 then 0 else |t| - 2
    ensures forall i :: 0 <= i < |body| ==> |body[i]| == |t[i + 1]|
    ensures forall i, j :: 0 <= i < |body| && 0 <= j < |body[i]| ==> body[i][j] == UnicodeStrip(t[i + 1][j])
  {
    var raw := Stripped(t);
    if |raw| < 2 then [] else raw[1..|raw| - 1]
  }

  /** `zip` stops at the six statistics or at the last converted row. */
  function RiskSteps(conv: seq<seq<Cell>>): (n: nat)
    ensures n <= 6 && n <= |conv| && (n == 6 || n == |conv|)
  {
    if |conv| < 6 then |conv| else 6
  }

  /** The scraping step of `get_risk` for one page, with its update loop. */
  method ScrapeRisk(ticker: string, view: RiskView) returns (res: Result<Record>)
    ensures res == RiskRecord(ticker, view)
  {
    var riskData: Record := map["ticker" := Str(ticker)];
    if view.None? {
      return Ok(riskData);
    }
    var conv := RiskValues(RiskBody(view.value));
    if conv.Err? {
      return Err(conv.error);
    }
    RiskRowsDistinct();
    var n := RiskSteps(conv.value);
    var updates: Record := map[];
    var i := 0;
    while i < n
      invariant 0 <= i <= n
      invariant updates == RiskAfter(conv.value, i)
    {
      updates := updates + Zip(RiskGrid[i], conv.value[i]);
      i := i + 1;
    }
    return Ok(riskData + updates);
  }

  /** Only ValueError and UnicodeEncodeError escape the risk step, raised by the first cell
      that does not read among those after the first of the rows between the header row and
      the last row. */
  lemma RiskRecordFails(ticker: string, view: RiskView)
    requires RiskRecord(ticker, view).Err?
    ensures RiskRecord(ticker, view).error in {ValueError, UnicodeEncodeError} && view.Some?
    ensures var t := view.value;
      exists i, j :: 1 <= i < |t| - 1 && 1 <= j < |t[i]| &&
        RiskValue(UnicodeStrip(t[i][j])) == Err(RiskRecord(ticker, view).error)
  {
    var t := view.value;
    var body := RiskBody(t);
    var e := RiskRecord(ticker, view).error;
    RiskValuesFirstError(body);
    var i, j :| 0 <= i < |body| && 1 <= j < |body[i]| && RiskValue(body[i][j]) == Err(e);
    assert RiskValue(UnicodeStrip(t[i + 1][j])) == Err(e);
  }

  /** On success the record holds the ticker and no key outside the header, and statistic
      `i` for period `j` is present exactly when row `i + 1` of the table (the last row
      excluded) has cell `j + 1`, holding that cell read as a number, or "" for a dash. */
  lemma RiskRecordCells(ticker: string, view: RiskView)
    requires RiskRecord(ticker, view).Ok?
    ensures var r := RiskRecord(ticker, view).value;
      r["ticker"] == Str(ticker) && FitsHeader(r, RiskFields) &&
      forall i, j :: 0 <= i < 6 && 0 <= j < 4 ==>
        (RiskGrid[i][j] in r <==> view.Some? && i + 2 < |view.value| && j + 1 < |view.value[i + 1]|) &&
        (RiskGrid[i][j] in r ==> Ok(r[RiskGrid[i][j]]) == RiskValue(UnicodeStrip(view.value[i + 1][j + 1])))
  {
    RiskGridInjective();
    RiskFieldsHasTicker();
    if view.Some? {
      RiskTableCells(ticker, view.value);
    }
  }

  /** A record the risk step produces holds only numbers and "" besides its ticker, so the
      writer can encode it. */
  lemma RiskRecordEncodable(ticker: string, view: RiskView)
    requires RiskRecord(ticker, view).Ok?
    ensures Encodable(RiskRecord(ticker, view).value)
  {
    if view.Some? {
      var conv := RiskValues(RiskBody(view.value)).value;
      RiskAfterPlain(conv, RiskSteps(conv));
    }
  }

  /** The update loop only copies converted cells. */
  lemma {:induction false} RiskAfterPlain(conv: seq<seq<Cell>>, n: nat)
    requires n <= 6 && n <= |conv|
    requires forall i, j :: 0 <= i < |conv| && 0 <= j < |conv[i]| ==> Plain(conv[i][j])
    ensures forall k :: k in RiskAfter(conv, n) ==> Plain(RiskAfter(conv, n)[k])
    decreases n
  {
    if n > 0 {
      RiskAfterPlain(conv, n - 1);
      RiskRowsDistinct();
      var z := Zip(RiskGrid[n - 1], conv[n - 1]);
      forall k | k in z ensures Plain(z[k]) {
        var j :| 0 <= j < 4 && RiskGrid[n - 1][j] == k;
      }
    }
  }

  lemma RiskTableCells(ticker: string, t: Table)
    requires RiskValues(RiskBody(t)).Ok?
    ensures var r := RiskRecord(ticker, Some(t)).value;
      r["ticker"] == Str(ticker) && FitsHeader(r, RiskFields) &&
      forall i, j :: 0 <= i < 6 && 0 <= j < 4 ==>
        (RiskGrid[i][j] in r <==> i + 2 < |t| && j + 1 < |t[i + 1]|) &&
        (RiskGrid[i][j] in r ==> Ok(r[RiskGrid[i][j]]) == RiskValue(UnicodeStrip(t[i + 1][j + 1])))
  {
    var conv := RiskValues(RiskBody(t)).value;
    var n := RiskSteps(conv);
    var u := RiskAfter(conv, n);
    RiskAfterSpec(conv, n);
    RiskBodyCells(t);
    RiskFieldsHasTicker();
    var r := map["ticker" := Str(ticker)] + u;
    assert RiskRecord(ticker, Some(t)).value == r;
    forall i: nat, j: nat | 0 <= i < 6 && 0 <= j < 4
      ensures RiskGrid[i][j] in r <==> i + 2 < |t| && j + 1 < |t[i + 1]|
      ensures RiskGrid[i][j] in r ==> Ok(r[RiskGrid[i][j]]) == RiskValue(UnicodeStrip(t[i + 1][j + 1]))
    {
      RiskGridInjective();
      assert RiskCellAligned(t, conv, i, j);
      assert RiskGrid[i][j] in u <==> i < n && j < |conv[i]|;
      assert RiskGrid[i][j] in r <==> RiskGrid[i][j] in u;
    }
  }

  /** The converted rows line up with the table: row `i` and value `j` come from row `i + 1`
      and cell `j + 1`. */
  ghost predicate RiskAligned(t: Table, conv: seq<seq<Cell>>) {
    forall i, j :: 0 <= i < 6 && 0 <= j < 4 ==> RiskCellAligned(t, conv, i, j)
  }

  ghost predicate RiskCellAligned(t: Table, conv: seq<seq<Cell>>, i: nat, j: nat) {
    ((i < RiskSteps(conv) && j < |conv[i]|) <==> (i + 2 < |t| && j + 1 < |t[i + 1]|)) &&
    (i < RiskSteps(conv) && j < |conv[i]| ==> Ok(conv[i][j]) == RiskValue(UnicodeStrip(t[i + 1][j + 1])))
  }

  lemma RiskBodyCells(t: Table)
    requires RiskValues(RiskBody(t)).Ok?
    ensures RiskAligned(t, RiskValues(RiskBody(t)).value)
  {
    var body := RiskBody(t);
    var conv := RiskValues(body).value;
    RiskValuesSpec(body);
    forall i: nat, j: nat | 0 <= i < 6 && 0 <= j < 4 ensures RiskCellAligned(t, conv, i, j) {
      if i < |body| {
        assert |conv[i]| == if body[i] == [] then 0 else |body[i]| - 1;
        if j < |conv[i]| {
          assert Ok(conv[i][j]) == RiskValue(body[i][j + 1]);
        }
      }
    }
  }

  lemma RiskFieldsHasTicker()
    ensures "ticker" in RiskFields
  {
    assert RiskFields[0] == "ticker";
  }

  // ---------------------------------------------------------------------------------------
  // The risk run

  /** The step of one ticker in `get_risk`: the TypeError of a body without a `div`, or the
      record read from its risk table. */
  function RiskStep(ticker: string, page: TidyPage<RiskView>): (r: Result<Record>)
    ensures page.NoDiv? ==> r == Err(TypeError)
    ensures page.Reached? ==> r == RiskRecord(ticker, page.view)
  {
    match page
    case NoDiv => Err(TypeError)
    case Reached(view) => RiskRecord(ticker, view)
  }

  function RiskRows(pages: map<string, TidyPage<RiskView>>): TickerRow {
    t => if t in pages then Some(RiskStep(t, pages[t])) else Some(Err(IOError))
  }

  /** `get_risk(outputfile)`: the records in ticker order, written under the header. */
  function RiskRun(tickers: seq<string>, pages: map<string, TidyPage<RiskView>>, output: string)
    : Result<Files>
  {
    match Collected(tickers, RiskRows(pages))
    case Err(e) => Err(e)
    case Ok(list) =>
      match CsvTable(RiskFields, list)
      case Err(e) => Err(e)
      case Ok(table) => Ok(map[output := table])
  }

  method CollectRisk(tickers: seq<string>, pages: map<string, TidyPage<RiskView>>)
    returns (res: Result<seq<Record>>)
    ensures res == Collected(tickers, RiskRows(pages))
  {
    res := Collect(tickers, RiskRows(pages));
  }

  method GetRisk(tickers: seq<string>, pages: map<string, TidyPage<RiskView>>, output: string)
    returns (res: Result<Files>)
    ensures res == RiskRun(tickers, pages, output)
  {
    var riskList := CollectRisk(tickers, pages);
    if riskList.Err? {
      return Err(riskList.error);
    }
    var table := WriteCsv(RiskFields, riskList.value);
    if table.Err? {
      return Err(table.error);
    }
    return Ok(map[output := table.value]);
  }

  /** The risk run succeeds exactly when every ticker has a page whose body holds a `div`
      and whose risk table holds no cell that does not read; it then writes the header and
      one row per ticker, in order (every value is a number or "", so the writer refuses
      none). A failing run raises IOError, TypeError, ValueError or UnicodeEncodeError. */
  lemma RiskRunSpec(tickers: seq<string>, pages: map<string, TidyPage<RiskView>>, output: string)
    ensures RiskRun(tickers, pages, output).Ok? <==>
      forall i :: 0 <= i < |tickers| ==> tickers[i] in pages && RiskStep(tickers[i], pages[tickers[i]]).Ok?
    ensures RiskRun(tickers, pages, output).Err? ==>
      RiskRun(tickers, pages, output).error in {IOError, TypeError, ValueError, UnicodeEncodeError}
    ensures RiskRun(tickers, pages, output).Ok? ==>
      var table := RiskRun(tickers, pages, output).value[output];
      |table| == |tickers| + 1 && table[0] == HeaderRow(RiskFields) &&
      forall i :: 0 <= i < |tickers| ==>
        table[i + 1] == RowOf(RiskFields, RiskStep(tickers[i], pages[tickers[i]]).value)
  {
    var row := RiskRows(pages);
    CollectedRows(tickers, row);
    CollectedEvery(tickers, row);
    if Collected(tickers, row).Ok? {
      var list := Collected(tickers, row).value;
      forall i | 0 <= i < |tickers|
        ensures tickers[i] in pages && RiskStep(tickers[i], pages[tickers[i]]) == Ok(list[i])
        ensures Writable(list[i], RiskFields)
      {
        assert !Escapes(row, tickers[i]);
        RiskRecordCells(tickers[i], pages[tickers[i]].view);
        RiskRecordEncodable(tickers[i], pages[tickers[i]].view);
      }
    } else {
      var e := Collected(tickers, row).error;
      var i :| 0 <= i < |tickers| && row(tickers[i]) == Some(Err(e));
      if tickers[i] in pages && pages[tickers[i]].Reached? {
        RiskRecordFails(tickers[i], pages[tickers[i]].view);
      }
    }
  }

  // ---------------------------------------------------------------------------------------
  // get_performance2

  /** What the alternate performance scraper descends to. `NoContainer`: no `div` with id
      "gf-viewc", whose `[0]` raises IndexError. `MissingElement`: a `find` on the way to the
      subsector divisions returns None, whose attribute lookup raises AttributeError.
      `Subsectors`: the subsector divisions, each with the texts of the rows of its table, or
      None when it has no table. */
  datatype PerformanceView =
    | NoContainer
    | MissingElement
    | Subsectors(tables: seq<Option<seq<string>>>)

  /** `xs[::2]`: the elements at even positions. */
  function EveryOther<T>(xs: seq<T>): (r: seq<T>)
    ensures |r| == (|xs| + 1) / 2
    ensures forall i :: 0 <= i < |r| ==> r[i] == xs[2 * i]
    decreases |xs|
  {
    if |xs| <= 1 then xs else [xs[0]] + EveryOther(xs[2..])
  }

  /** `u.text.encode('ascii', errors='ignore').replace("\n", "").strip()`: the text of a row
      is ASCII, without a line break, and neither starts nor ends with white space. */
  function RowText(u: string): (r: string)
    ensures IsAscii(r) && '\n' !in r
    ensures r == [] || (!IsSpace(r[0]) && !IsSpace(r[|r| - 1]))
  {
    RowTextClean(u);
    Strip(ReplaceAll(DropNonAscii(u), "\n", ""))
  }

  lemma RowTextClean(u: string)
    ensures var r := Strip(ReplaceAll(DropNonAscii(u), "\n", "")); IsAscii(r) && '\n' !in r
  {
    var a := DropNonAscii(u);
    DropNonAsciiMembers(u);
    ReplaceCharGone(a, '\n', "");
    var b := ReplaceAll(a, "\n", "");
    var r := Strip(b);
    StripKeepsChars(b);
    forall i | 0 <= i < |r| ensures r[i] < 128 as char {
      if r[i] >= 128 as char {
        ReplaceKeepsOtherChars(a, "\n", r[i]);
      }
    }
  }

  lemma StripKeepsChars(b: string)
    ensures forall i :: 0 <= i < |Strip(b)| ==> Strip(b)[i] in b
  {
    var start := SkipSpaces(b, 0);
    assert Strip(b) == b[start..BackSpaces(b, start, |b|)];
  }

  /** `filter(lambda x: x != u'', [...])`: the non-empty row texts, in row order. */
  function RowTexts(rows: seq<string>): (r: seq<string>)
    ensures |r| <= |rows|
    ensures forall i :: 0 <= i < |r| ==> r[i] != [] && IsAscii(r[i]) && '\n' !in r[i]
    decreases |rows|
  {
    if rows == [] then []
    else
      var t := RowText(rows[0]);
      (if t == [] then [] else [t]) + RowTexts(rows[1..])
  }

  /** The filter keeps a text exactly when it is the non-empty text of some row. */
  lemma {:induction false} RowTextsContents(rows: seq<string>, x: string)
    ensures x in RowTexts(rows) <==> x != [] && exists i :: 0 <= i < |rows| && RowText(rows[i]) == x
    decreases |rows|
  {
    if rows != [] {
      RowTextsContents(rows[1..], x);
      if exists i :: 0 <= i < |rows[1..]| && RowText(rows[1..][i]) == x {
        var i :| 0 <= i < |rows[1..]| && RowText(rows[1..][i]) == x;
        assert RowText(rows[i + 1]) == x;
      }
      if exists i :: 0 <= i < |rows| && RowText(rows[i]) == x {
        var i :| 0 <= i < |rows| && RowText(rows[i]) == x;
        if i > 0 {
          assert RowText(rows[1..][i - 1]) == x;
        }
      }
    }
  }

  /** When no row text is empty, the filter keeps every one of them, in order. */
  lemma {:induction false} RowTextsKeepAll(rows: seq<string>)
    requires forall i :: 0 <= i < |rows| ==> RowText(rows[i]) != []
    ensures |RowTexts(rows)| == |rows|
    ensures forall i :: 0 <= i < |rows| ==> RowTexts(rows)[i] == RowText(rows[i])
    decreases |rows|
  {
    if rows != [] {
      assert forall i :: 0 <= i < |rows[1..]| ==> RowText(rows[1..][i]) == RowText(rows[i + 1]);
      RowTextsKeepAll(rows[1..]);
    }
  }

  /** The row texts the returns are read from: those of every other row, empty ones dropped,
      the last one left out (`[:-1]`). */
  function ReturnLines(rows: seq<string>): (lines: seq<string>)
    ensures var texts := RowTexts(EveryOther(rows));
      |lines| == (if texts == [] then 0 else |texts| - 1) &&
      forall i :: 0 <= i < |lines| ==> lines[i] == texts[i]
  {
    var texts := RowTexts(EveryOther(rows));
    if texts == [] then [] else texts[..|texts| - 1]
  }

  /** `[re.search(pattern, s).group(1) for s in lines]`: the group of each line, or None when
      some line has no match, the AttributeError of `None.group` ending the list. */
  function SignedGroups(lines: seq<string>): (r: Option<seq<string>>)
    ensures r.Some? <==> forall i :: 0 <= i < |lines| ==> SignedSearch(lines[i]).Some?
    ensures r.Some? ==>
      |r.value| == |lines| && forall i :: 0 <= i < |lines| ==> SignedSearch(lines[i]) == Some(r.value[i])
  {
    if forall i :: 0 <= i < |lines| ==> SignedSearch(lines[i]).Some? then
      Some(seq(|lines|, i requires 0 <= i < |lines| => SignedSearch(lines[i]).value))
    else None
  }

  /** The returns of one page: the IndexError of a missing container or a missing second
      subsector division escapes; an AttributeError, from a missing element, a subsector
      without a table or a line without a match, leaves no returns. */
  function Performance2Data(view: PerformanceView): (r: Result<seq<string>>)
    ensures r.Err? ==> r.error == IndexError
  {
    match view
    case NoContainer => Err(IndexError)
    case MissingElement => Ok([])
    case Subsectors(ts) =>
      if |ts| < 2 then Err(IndexError)
      else match ts[1]
        case None => Ok([])
        case Some(rows) =>
          match SignedGroups(ReturnLines(rows))
          case None => Ok([])
          case Some(data) => Ok(data)
  }

  /** The record of one ticker: `dict(zip(performance_fields, [ticker] + performance_data))`. */
  function Performance2Record(ticker: string, view: PerformanceView): Result<Record> {
    match Performance2Data(view)
    case Err(e) => Err(e)
    case Ok(data) => Ok(PerformanceZip(ticker, data))
  }

  /** `dict(zip(performance_fields, [ticker] + data))` */
  function PerformanceZip(ticker: string, data: seq<string>): Record {
    GfncFundpageScraper.PerformanceFieldsDistinct();
    Zip(GfncFundpageScraper.PerformanceFields, [Str(ticker)] + TextCells(data))
  }

  /** The `try` block of `get_performance2` for one page. */
  method ScrapePerformance2(ticker: string, view: PerformanceView) returns (res: Result<Record>)
    ensures res == Performance2Record(ticker, view)
  {
    var performanceData: seq<string> := [];
    match view {
      case NoContainer =>
        return Err(IndexError);
      case MissingElement =>
      case Subsectors(ts) =>
        if |ts| < 2 {
          return Err(IndexError);
        }
        if ts[1].Some? {
          var groups := SignedGroups(ReturnLines(ts[1].value));
          if groups.Some? {
            performanceData := groups.value;
          }
        }
    }
    return Ok(PerformanceZip(ticker, performanceData));
  }

  /** Every line the returns are read from has a match of the row pattern. */
  ghost predicate AllLinesMatch(lines: seq<string>) {
    forall k :: 0 <= k < |lines| ==> LineMatches(lines[k])
  }

  ghost predicate LineMatches(line: string) {
    exists p, w :: 0 <= p <= |line| && SignedMatchesAt(line, p, w)
  }

  /** Only IndexError escapes, exactly when the container or the second subsector division is
      missing. Otherwise the record holds the ticker and no key outside the header; the
      periods are filled, in header order, from the return lines of the second subsector's
      table when every line has a match, each with the group of its leftmost match, a
      signed text; in every other case the record holds the ticker only. */
  lemma Performance2RecordSpec(ticker: string, view: PerformanceView)
    ensures Performance2Record(ticker, view).Err? <==>
      view.NoContainer? || (view.Subsectors? && |view.tables| < 2)
    ensures Performance2Record(ticker, view).Err? ==> Performance2Record(ticker, view).error == IndexError
    ensures Performance2Record(ticker, view).Ok? ==>
      var r := Performance2Record(ticker, view).value;
      "ticker" in r && r["ticker"] == Str(ticker) && FitsHeader(r, GfncFundpageScraper.PerformanceFields) &&
      if view.Subsectors? && view.tables[1].Some? && AllLinesMatch(ReturnLines(view.tables[1].value)) then
        ReturnsFilled(r, ReturnLines(view.tables[1].value))
      else r.Keys == {"ticker"}
  {
    if Performance2Record(ticker, view).Ok? {
      var data := Performance2Data(view).value;
      Performance2Zip(ticker, data);
      if view.Subsectors? && view.tables[1].Some? && AllLinesMatch(ReturnLines(view.tables[1].value)) {
        var lines := ReturnLines(view.tables[1].value);
        Performance2Lines(lines);
        Performance2Filled(ticker, lines, data);
      } else {
        Performance2Empty(view);
      }
    }
  }

  /** Without a second subsector table whose every line has a match, there are no returns. */
  lemma Performance2Empty(view: PerformanceView)
    requires Performance2Data(view).Ok?
    requires !(view.Subsectors? && view.tables[1].Some? && AllLinesMatch(ReturnLines(view.tables[1].value)))
    ensures Performance2Data(view).value == []
  {
    if view.Subsectors? && view.tables[1].Some? {
      SignedGroupsNone(ReturnLines(view.tables[1].value));
    }
  }

  /** A line without a match leaves no returns. */
  lemma SignedGroupsNone(lines: seq<string>)
    requires !AllLinesMatch(lines)
    ensures SignedGroups(lines).None?
  {
    var k :| 0 <= k < |lines| && !LineMatches(lines[k]);
    SignedSearchSpec(lines[k]);
  }

  /** Period `k` is present exactly when there is a `k`-th return line, and then holds the
      group of the leftmost match in that line, a signed text. */
  ghost predicate ReturnsFilled(r: Record, lines: seq<string>) {
    forall k :: 0 <= k < 8 ==> ReturnFilled(r, lines, k)
  }

  ghost predicate ReturnFilled(r: Record, lines: seq<string>, k: nat)
    requires k < 8
  {
    var d := GfncFundpageScraper.Durations[k];
    (d in r <==> k < |lines|) &&
    (k < |lines| ==> d in r && r[d].Str? && FirstSignedMatch(lines[k], r[d].s) && IsSignedText(r[d].s))
  }

  /** The zipped record: the ticker first, then one period per return, in header order. */
  lemma Performance2Zip(ticker: string, data: seq<string>)
    ensures var z := PerformanceZip(ticker, data);
      "ticker" in z && z["ticker"] == Str(ticker) && FitsHeader(z, GfncFundpageScraper.PerformanceFields) &&
      (data == [] ==> z.Keys == {"ticker"}) &&
      forall k :: 0 <= k < 8 ==>
        (GfncFundpageScraper.Durations[k] in z <==> k < |data|) &&
        (k < |data| ==> z[GfncFundpageScraper.Durations[k]] == Str(data[k]))
  {
    GfncFundpageScraper.PerformanceFieldsDistinct();
    var fields := GfncFundpageScraper.PerformanceFields;
    var values := [Str(ticker)] + TextCells(data);
    var z := PerformanceZip(ticker, data);
    assert z == Zip(fields, values);
    assert fields[0] == "ticker";
    assert forall k :: 0 <= k < 8 ==> fields[k + 1] == GfncFundpageScraper.Durations[k];
    forall k | 0 <= k < 8 && k < |data| ensures z[fields[k + 1]] == Str(data[k]) {
      assert values[k + 1] == Str(data[k]);
    }
    if data == [] {
      forall f | f in z ensures f == "ticker" {
        var i :| 0 <= i < |fields| && fields[i] == f;
      }
    }
  }

  lemma Performance2Filled(ticker: string, lines: seq<string>, data: seq<string>)
    requires SignedGroups(lines) == Some(data)
    ensures ReturnsFilled(PerformanceZip(ticker, data), lines)
  {
    var z := PerformanceZip(ticker, data);
    Performance2Zip(ticker, data);
    forall k: nat | k < 8 ensures ReturnFilled(z, lines, k) {
      if k < |lines| {
        SignedSearchSpec(lines[k]);
        SignedSearchIsSigned(lines[k]);
      }
    }
  }

  /** When every line has a match, the search finds one in every line. */
  lemma Performance2Lines(lines: seq<string>)
    requires AllLinesMatch(lines)
    ensures SignedGroups(lines).Some?
  {
    forall k | 0 <= k < |lines| ensures SignedSearch(lines[k]).Some? {
      SignedSearchSpec(lines[k]);
    }
  }

  // ---------------------------------------------------------------------------------------
  // The alternate performance run

  /** `self.tickers[:10]`: the run looks at the first ten tickers only. */
  function FirstTen(tickers: seq<string>): (r: seq<string>)
    ensures |r| == (if |tickers| < 10 then |tickers| else 10) && r == tickers[..|r|]
  {
    if |tickers| < 10 then tickers else tickers[..10]
  }

  /** The step of one ticker in `get_performance2`: the TypeError of a body without a `div`,
      or the record of the page. */
  function Performance2Step(ticker: string, page: TidyPage<PerformanceView>): (r: Result<Record>)
    ensures page.NoDiv? ==> r == Err(TypeError)
    ensures page.Reached? ==> r == Performance2Record(ticker, page.view)
  {
    match page
    case NoDiv => Err(TypeError)
    case Reached(view) => Performance2Record(ticker, view)
  }

  function Performance2Rows(pages: map<string, TidyPage<PerformanceView>>): TickerRow {
    t => if t in pages then Some(Performance2Step(t, pages[t])) else Some(Err(IOError))
  }

  /** `get_performance2(outputfile)`: the records of the first ten tickers, in order, written
      under the header. */
  function Performance2Run(tickers: seq<string>, pages: map<string, TidyPage<PerformanceView>>, output: string)
    : Result<Files>
  {
    match Collected(FirstTen(tickers), Performance2Rows(pages))
    case Err(e) => Err(e)
    case Ok(list) =>
      match CsvTable(GfncFundpageScraper.PerformanceFields, list)
      case Err(e) => Err(e)
      case Ok(table) => Ok(map[output := table])
  }

  method CollectPerformance2(tickers: seq<string>, pages: map<string, TidyPage<PerformanceView>>)
    returns (res: Result<seq<Record>>)
    ensures res == Collected(FirstTen(tickers), Performance2Rows(pages))
  {
    res := Collect(FirstTen(tickers), Performance2Rows(pages));
  }

  method GetPerformance2(tickers: seq<string>, pages: map<string, TidyPage<PerformanceView>>, output: string)
    returns (res: Result<Files>)
    ensures res == Performance2Run(tickers, pages, output)
  {
    var performances := CollectPerformance2(tickers, pages);
    if performances.Err? {
      return Err(performances.error);
    }
    var table := WriteCsv(GfncFundpageScraper.PerformanceFields, performances.value);
    if table.Err? {
      return Err(table.error);
    }
    return Ok(map[output := table.value]);
  }

  /** The returns read from a page are ASCII: the row texts are encoded to ASCII before the
      search. */
  lemma Performance2DataAscii(view: PerformanceView)
    requires Performance2Data(view).Ok?
    ensures forall k :: 0 <= k < |Performance2Data(view).value| ==> IsAscii(Performance2Data(view).value[k])
  {
    var data := Performance2Data(view).value;
    if view.Subsectors? && view.tables[1].Some? {
      var lines := ReturnLines(view.tables[1].value);
      if SignedGroups(lines).Some? {
        forall k | 0 <= k < |data| ensures IsAscii(data[k]) {
          SignedSearchIsSigned(lines[k]);
          SignedTextsAscii(data[k]);
        }
      }
    }
  }

  /** A record zipped from ASCII returns can be written. */
  lemma PerformanceZipEncodable(ticker: string, data: seq<string>)
    requires forall k :: 0 <= k < |data| ==> IsAscii(data[k])
    ensures Encodable(PerformanceZip(ticker, data))
  {
    GfncFundpageScraper.PerformanceFieldsDistinct();
    var fields := GfncFundpageScraper.PerformanceFields;
    var values := [Str(ticker)] + TextCells(data);
    var z := PerformanceZip(ticker, data);
    forall k | k in z && k != "ticker" ensures z[k].Str? && IsAscii(z[k].s) {
      var i :| 0 <= i < |fields| && fields[i] == k;
      assert i != 0 && i < |values|;
      assert z[k] == values[i] == Str(data[i - 1]);
    }
  }

  /** A record the alternate run builds can be written. */
  lemma Performance2StepWritable(ticker: string, page: TidyPage<PerformanceView>)
    requires Performance2Step(ticker, page).Ok?
    ensures Writable(Performance2Step(ticker, page).value, GfncFundpageScraper.PerformanceFields)
  {
    var view := page.view;
    Performance2Zip(ticker, Performance2Data(view).value);
    Performance2DataAscii(view);
    PerformanceZipEncodable(ticker, Performance2Data(view).value);
  }

  /** The alternate run succeeds exactly when each of the first ten tickers has a page whose
      body holds a `div`, with the container and a second subsector division; it then writes
      the header and one row for each of those tickers, in order. A failing run raises
      IOError, TypeError or IndexError. */
  lemma Performance2RunSpec(tickers: seq<string>, pages: map<string, TidyPage<PerformanceView>>, output: string)
    ensures Performance2Run(tickers, pages, output).Ok? <==>
      forall i :: 0 <= i < |tickers| && i < 10 ==>
        tickers[i] in pages && Performance2Step(tickers[i], pages[tickers[i]]).Ok?
    ensures Performance2Run(tickers, pages, output).Err? ==>
      Performance2Run(tickers, pages, output).error in {IOError, TypeError, IndexError}
    ensures Performance2Run(tickers, pages, output).Ok? ==>
      var table := Performance2Run(tickers, pages, output).value[output];
      var n := if |tickers| < 10 then |tickers| else 10;
      |table| == n + 1 && table[0] == HeaderRow(GfncFundpageScraper.PerformanceFields) &&
      forall i :: 0 <= i < n ==>
        table[i + 1] == RowOf(GfncFundpageScraper.PerformanceFields,
          Performance2Step(tickers[i], pages[tickers[i]]).value)
  {
    var first := FirstTen(tickers);
    var row := Performance2Rows(pages);
    CollectedRows(first, row);
    CollectedEvery(first, row);
    forall i | 0 <= i < |first|
      ensures first[i] == tickers[i]
      ensures Escapes(row, first[i]) <==> !(first[i] in pages && Performance2Step(first[i], pages[first[i]]).Ok?)
    {
    }
    if Collected(first, row).Ok? {
      var list := Collected(first, row).value;
      forall i | 0 <= i < |first|
        ensures first[i] in pages && Performance2Step(first[i], pages[first[i]]) == Ok(list[i])
        ensures Writable(list[i], GfncFundpageScraper.PerformanceFields)
      {
        assert !Escapes(row, first[i]);
        Performance2StepWritable(first[i], pages[first[i]]);
      }
    } else {
      var e := Collected(first, row).error;
      var i :| 0 <= i < |first| && row(first[i]) == Some(Err(e));
      if first[i] in pages && pages[first[i]].Reached? {
        assert Performance2Data(pages[first[i]].view).Err?;
      }
    }
  }

  // ---------------------------------------------------------------------------------------
  // scrape

  /** One saved page as each of the three runs of `scrape` sees it. */
  datatype GooglePage = GooglePage(
    performance: GfncFundpageScraper.FundPage, risk: TidyPage<RiskView>, profile: ProfileView)

  function PerformancePages(pages: map<string, GooglePage>): map<string, GfncFundpageScraper.FundPage> {
    map t | t in pages :: pages[t].performance
  }

  function RiskPages(pages: map<string, GooglePage>): map<string, TidyPage<RiskView>> {
    map t | t in pages :: pages[t].risk
  }

  function ProfilePages(pages: map<string, GooglePage>): map<string, ProfileView> {
    map t | t in pages :: pages[t].profile
  }

  /** What `scrape` leaves behind: the files of the runs that finished before it stopped, and
      the exception that stopped it, if any. The run that raised adds no file, even when
      `writerow` refused a record after the header and earlier rows were written. */
  datatype ScrapeOutcome = ScrapeOutcome(files: Files, error: Option<PyError>)

  /** A run, given the path it writes to. */
  type Run = string -> Result<Files>

  /** A run writes one file, at the path it is given, or raises. */
  ghost predicate WritesOnly(run: Run) {
    forall p :: run(p).Ok? ==> run(p).value.Keys == {p}
  }

  /** `scrape(outputfile)`: the performance, risk and profile runs one after the other, each
      writing to `outputfile` with its suffix inserted; the first exception stops the rest.
      `toSuffixed` chooses where the performance run writes: to the suffixed path it computes
      and announces, or, as line 42 has it, to `outputfile` itself. */
  function ScrapeWith(output: string, toSuffixed: bool, performance: Run, risk: Run, profile: Run)
    : ScrapeOutcome
  {
    match InsertSuffix(output, "_performance")
    case Err(e) => ScrapeOutcome(map[], Some(e))
    case Ok(performancePath) =>
      match performance(if toSuffixed then performancePath else output)
      case Err(e) => ScrapeOutcome(map[], Some(e))
      case Ok(f1) =>
        match InsertSuffix(output, "_risk")
        case Err(e) => ScrapeOutcome(f1, Some(e))
        case Ok(riskPath) =>
          match risk(riskPath)
          case Err(e) => ScrapeOutcome(f1, Some(e))
          case Ok(f2) =>
            match InsertSuffix(output, "_profile")
            case Err(e) => ScrapeOutcome(f1 + f2, Some(e))
            case Ok(profilePath) =>
              match profile(profilePath)
              case Err(e) => ScrapeOutcome(f1 + f2, Some(e))
              case Ok(f3) => ScrapeOutcome(f1 + f2 + f3, None)
  }

  function PerformanceOf(tickers: seq<string>, pages: map<string, GooglePage>): Run {
    path => GfncFundpageScraper.PerformanceRun(tickers, PerformancePages(pages), path)
  }

  function RiskOf(tickers: seq<string>, pages: map<string, GooglePage>): Run {
    path => RiskRun(tickers, RiskPages(pages), path)
  }

  function ProfileOf(tickers: seq<string>, pages: map<string, GooglePage>): Run {
    path => ProfileRun(tickers, ProfilePages(pages), path)
  }

  /** `scrape` as written: the performance table goes to `outputfile`. */
  function ScrapeAsWritten(tickers: seq<string>, pages: map<string, GooglePage>, output: string)
    : ScrapeOutcome
  {
    ScrapeWith(output, false, PerformanceOf(tickers, pages), RiskOf(tickers, pages), ProfileOf(tickers, pages))
  }

  /** `scrape` as intended: the performance table goes to the path with "_performance". */
  function Scrape(tickers: seq<string>, pages: map<string, GooglePage>, output: string): ScrapeOutcome {
    ScrapeWith(output, true, PerformanceOf(tickers, pages), RiskOf(tickers, pages), ProfileOf(tickers, pages))
  }

  /** The body of `scrape`: the three runs in order, each adding the file it writes. */
  method RunScrape(output: string, toSuffixed: bool, performance: Run, risk: Run, profile: Run)
    returns (outcome: ScrapeOutcome)
    ensures outcome == ScrapeWith(output, toSuffixed, performance, risk, profile)
  {
    var performancePath := InsertSuffix(output, "_performance");
    if performancePath.Err? {
      return ScrapeOutcome(map[], Some(performancePath.error));
    }
    var performanceFiles := performance(if toSuffixed then performancePath.value else output);
    if performanceFiles.Err? {
      return ScrapeOutcome(map[], Some(performanceFiles.error));
    }
    var written := performanceFiles.value;
    // insert_suffix succeeds or fails on the base name alone, whatever the suffix
    InsertSuffixSucceeds(output, "_performance");
    InsertSuffixSucceeds(output, "_risk");
    InsertSuffixSucceeds(output, "_profile");
    var riskPath := InsertSuffix(output, "_risk").value;
    var riskFiles := risk(riskPath);
    if riskFiles.Err? {
      return ScrapeOutcome(written, Some(riskFiles.error));
    }
    written := written + riskFiles.value;
    var profilePath := InsertSuffix(output, "_profile").value;
    var profileFiles := profile(profilePath);
    if profileFiles.Err? {
      return ScrapeOutcome(written, Some(profileFiles.error));
    }
    written := written + profileFiles.value;
    return ScrapeOutcome(written, None);
  }

  /** The three output paths differ from each other and from `outputfile`. */
  lemma ScrapePathsDistinct(output: string)
    requires InsertSuffix(output, "_performance").Ok?
    ensures InsertSuffix(output, "_risk").Ok? && InsertSuffix(output, "_profile").Ok?
    ensures var pp, rp, fp :=
        InsertSuffix(output, "_performance").value, InsertSuffix(output, "_risk").value,
        InsertSuffix(output, "_profile").value;
      pp != rp && pp != fp && rp != fp && output !in {pp, rp, fp}
  {
    InsertSuffixSucceeds(output, "_performance");
    InsertSuffixSucceeds(output, "_risk");
    InsertSuffixSucceeds(output, "_profile");
    InsertSuffixMoves(output, "_performance");
    InsertSuffixMoves(output, "_risk");
    InsertSuffixMoves(output, "_profile");
    InsertSuffixesDiffer(output, "_performance", "_risk", 1);
    InsertSuffixesDiffer(output, "_performance", "_profile", 2);
    InsertSuffixesDiffer(output, "_risk", "_profile", 1);
  }

  /** A bad base name stops `scrape` at once with ValueError and no file; any other exception
      is one that a run raised, with the files of the runs before it kept. */
  lemma ScrapeWithErrors(output: string, toSuffixed: bool, performance: Run, risk: Run, profile: Run,
                         raised: set<PyError>)
    requires forall p :: performance(p).Err? ==> performance(p).error in raised
    requires forall p :: risk(p).Err? ==> risk(p).error in raised
    requires forall p :: profile(p).Err? ==> profile(p).error in raised
    ensures InsertSuffix(output, "_performance").Err? ==>
      ScrapeWith(output, toSuffixed, performance, risk, profile) == ScrapeOutcome(map[], Some(ValueError))
    ensures ScrapeWith(output, toSuffixed, performance, risk, profile).error.Some? ==>
      ScrapeWith(output, toSuffixed, performance, risk, profile).error.value in raised + {ValueError}
  {
  }

  /** A completed `scrape` holds the three files, each at the path its run was given. */
  lemma ScrapeWithFiles(output: string, toSuffixed: bool, performance: Run, risk: Run, profile: Run)
    requires WritesOnly(performance) && WritesOnly(risk) && WritesOnly(profile)
    requires ScrapeWith(output, toSuffixed, performance, risk, profile).error.None?
    ensures InsertSuffix(output, "_performance").Ok? && InsertSuffix(output, "_risk").Ok? &&
      InsertSuffix(output, "_profile").Ok?
    ensures var files := ScrapeWith(output, toSuffixed, performance, risk, profile).files;
      var pp, rp, fp :=
        InsertSuffix(output, "_performance").value, InsertSuffix(output, "_risk").value,
        InsertSuffix(output, "_profile").value;
      var target := if toSuffixed then pp else output;
      files.Keys == {target, rp, fp} && pp != rp && pp != fp && rp != fp && output !in {pp, rp, fp} &&
      files[target] == performance(target).value[target] &&
      files[rp] == risk(rp).value[rp] && files[fp] == profile(fp).value[fp]
  {
    ScrapePathsDistinct(output);
  }

  /** Each run writes one file, at the path it is given. */
  lemma RunsWriteOnly(tickers: seq<string>, pages: map<string, GooglePage>)
    ensures WritesOnly(PerformanceOf(tickers, pages))
    ensures WritesOnly(RiskOf(tickers, pages))
    ensures WritesOnly(ProfileOf(tickers, pages))
  {
    forall p ensures PerformanceOf(tickers, pages)(p).Ok? ==> PerformanceOf(tickers, pages)(p).value.Keys == {p} {
      GfncFundpageScraper.PerformanceRunSpec(tickers, PerformancePages(pages), p);
    }
    forall p ensures RiskOf(tickers, pages)(p).Ok? ==> RiskOf(tickers, pages)(p).value.Keys == {p} {
      RiskRunKeys(tickers, RiskPages(pages), p);
    }
    forall p ensures ProfileOf(tickers, pages)(p).Ok? ==> ProfileOf(tickers, pages)(p).value.Keys == {p} {
      ProfileRunKeys(tickers, ProfilePages(pages), p);
    }
  }

  lemma RiskRunKeys(tickers: seq<string>, pages: map<string, TidyPage<RiskView>>, p: string)
    ensures RiskRun(tickers, pages, p).Ok? ==> RiskRun(tickers, pages, p).value.Keys == {p}
  {
  }

  lemma ProfileRunKeys(tickers: seq<string>, pages: map<string, ProfileView>, p: string)
    ensures ProfileRun(tickers, pages, p).Ok? ==> ProfileRun(tickers, pages, p).value.Keys == {p}
  {
  }

  /** The performance table does not depend on the path it is written to. */
  lemma PerformanceRunAnywhere(tickers: seq<string>, pages: map<string, GfncFundpageScraper.FundPage>, a: string, b: string)
    ensures GfncFundpageScraper.PerformanceRun(tickers, pages, a).Ok? ==>
      GfncFundpageScraper.PerformanceRun(tickers, pages, b).Ok? &&
      GfncFundpageScraper.PerformanceRun(tickers, pages, a).value[a] ==
      GfncFundpageScraper.PerformanceRun(tickers, pages, b).value[b]
  {
  }

  /** Corrected `scrape`: a base name without exactly one `.` stops it at once with
      ValueError and no file; any other exception comes from one of the runs; when it
      completes, it has written three files at three different paths, none of them
      `outputfile`: the performance, risk and profile tables, each at the path with its
      suffix. */
  lemma ScrapeSpec(tickers: seq<string>, pages: map<string, GooglePage>, output: string)
    ensures InsertSuffix(output, "_performance").Err? ==>
      Scrape(tickers, pages, output) == ScrapeOutcome(map[], Some(ValueError))
    ensures Scrape(tickers, pages, output).error.Some? ==>
      Scrape(tickers, pages, output).error.value in {IOError, AttributeError, TypeError, ValueError, UnicodeEncodeError}
  {
    var performance, risk, profile := PerformanceOf(tickers, pages), RiskOf(tickers, pages), ProfileOf(tickers, pages);
    RunsRaise(tickers, pages);
    ScrapeWithErrors(output, true, performance, risk, profile, {IOError, AttributeError, TypeError, ValueError, UnicodeEncodeError});
  }

  lemma ScrapeFiles(tickers: seq<string>, pages: map<string, GooglePage>, output: string)
    requires Scrape(tickers, pages, output).error.None?
    ensures var files := Scrape(tickers, pages, output).files;
      var pp, rp, fp :=
        InsertSuffix(output, "_performance").value, InsertSuffix(output, "_risk").value,
        InsertSuffix(output, "_profile").value;
      files.Keys == {pp, rp, fp} && pp != rp && pp != fp && rp != fp && output !in files
  {
    RunsWriteOnly(tickers, pages);
    ScrapeWithKeys(output, PerformanceOf(tickers, pages), RiskOf(tickers, pages), ProfileOf(tickers, pages));
  }

  /** The paths part of `ScrapeWithFiles` for the corrected `scrape`. */
  lemma ScrapeWithKeys(output: string, performance: Run, risk: Run, profile: Run)
    requires WritesOnly(performance) && WritesOnly(risk) && WritesOnly(profile)
    requires ScrapeWith(output, true, performance, risk, profile).error.None?
    ensures InsertSuffix(output, "_performance").Ok? && InsertSuffix(output, "_risk").Ok? &&
      InsertSuffix(output, "_profile").Ok?
    ensures var files := ScrapeWith(output, true, performance, risk, profile).files;
      var pp, rp, fp :=
        InsertSuffix(output, "_performance").value, InsertSuffix(output, "_risk").value,
        InsertSuffix(output, "_profile").value;
      files.Keys == {pp, rp, fp} && pp != rp && pp != fp && rp != fp && output !in files
  {
    ScrapeWithFiles(output, true, performance, risk, profile);
  }

  lemma ScrapeTables(tickers: seq<string>, pages: map<string, GooglePage>, output: string)
    requires Scrape(tickers, pages, output).error.None?
    ensures InsertSuffix(output, "_performance").Ok? && InsertSuffix(output, "_risk").Ok? &&
      InsertSuffix(output, "_profile").Ok?
    ensures var files := Scrape(tickers, pages, output).files;
      var pp, rp, fp :=
        InsertSuffix(output, "_performance").value, InsertSuffix(output, "_risk").value,
        InsertSuffix(output, "_profile").value;
      pp in files && rp in files && fp in files &&
      PerformanceOf(tickers, pages)(pp).Ok? && pp in PerformanceOf(tickers, pages)(pp).value &&
      RiskOf(tickers, pages)(rp).Ok? && rp in RiskOf(tickers, pages)(rp).value &&
      ProfileOf(tickers, pages)(fp).Ok? && fp in ProfileOf(tickers, pages)(fp).value &&
      files[pp] == PerformanceOf(tickers, pages)(pp).value[pp] &&
      files[rp] == RiskOf(tickers, pages)(rp).value[rp] &&
      files[fp] == ProfileOf(tickers, pages)(fp).value[fp]
  {
    RunsWriteOnly(tickers, pages);
    ScrapeWithFiles(output, true, PerformanceOf(tickers, pages), RiskOf(tickers, pages), ProfileOf(tickers, pages));
  }

  /** The runs raise only IOError, AttributeError, TypeError, ValueError or
      UnicodeEncodeError. */
  lemma RunsRaise(tickers: seq<string>, pages: map<string, GooglePage>)
    ensures forall p :: PerformanceOf(tickers, pages)(p).Err? ==>
      PerformanceOf(tickers, pages)(p).error in {IOError, AttributeError, TypeError, ValueError, UnicodeEncodeError}
    ensures forall p :: RiskOf(tickers, pages)(p).Err? ==>
      RiskOf(tickers, pages)(p).error in {IOError, AttributeError, TypeError, ValueError, UnicodeEncodeError}
    ensures forall p :: ProfileOf(tickers, pages)(p).Err? ==>
      ProfileOf(tickers, pages)(p).error in {IOError, AttributeError, TypeError, ValueError, UnicodeEncodeError}
  {
    forall p ensures PerformanceOf(tickers, pages)(p).Err? ==>
      PerformanceOf(tickers, pages)(p).error in {IOError, AttributeError, TypeError, ValueError, UnicodeEncodeError}
    {
      GfncFundpageScraper.PerformanceRunSpec(tickers, PerformancePages(pages), p);
    }
    forall p ensures RiskOf(tickers, pages)(p).Err? ==>
      RiskOf(tickers, pages)(p).error in {IOError, AttributeError, TypeError, ValueError, UnicodeEncodeError}
    {
      RiskRunSpec(tickers, RiskPages(pages), p);
    }
    forall p ensures ProfileOf(tickers, pages)(p).Err? ==>
      ProfileOf(tickers, pages)(p).error in {IOError, AttributeError, TypeError, ValueError, UnicodeEncodeError}
    {
      ProfileRunSpec(tickers, ProfilePages(pages), p);
    }
  }

  /** `scrape` as written announces the performance file at the path with "_performance" but
      writes no file there: when it completes, the performance table is at `outputfile`
      itself, exactly the table the corrected `scrape` puts at the announced path. */
  lemma ScrapeAsWrittenMisplaces(tickers: seq<string>, pages: map<string, GooglePage>, output: string)
    requires ScrapeAsWritten(tickers, pages, output).error.None?
    ensures Scrape(tickers, pages, output).error.None? && InsertSuffix(output, "_performance").Ok?
    ensures var pp := InsertSuffix(output, "_performance").value;
      var files := ScrapeAsWritten(tickers, pages, output).files;
      pp !in files && output in files && pp in Scrape(tickers, pages, output).files &&
      files[output] == Scrape(tickers, pages, output).files[pp]
  {
    RunsWriteOnly(tickers, pages);
    PerformancePathFree(tickers, pages);
    ScrapeWithMisplaces(output, PerformanceOf(tickers, pages), RiskOf(tickers, pages), ProfileOf(tickers, pages));
  }

  /** The performance table does not depend on the path it is written to. */
  ghost predicate PathFree(run: Run) {
    forall a, b :: run(a).Ok? ==>
      run(b).Ok? && a in run(a).value && b in run(b).value && run(a).value[a] == run(b).value[b]
  }

  lemma PerformancePathFree(tickers: seq<string>, pages: map<string, GooglePage>)
    ensures PathFree(PerformanceOf(tickers, pages))
  {
    forall a, b | PerformanceOf(tickers, pages)(a).Ok?
      ensures PerformanceOf(tickers, pages)(b).Ok? &&
        PerformanceOf(tickers, pages)(a).value[a] == PerformanceOf(tickers, pages)(b).value[b]
    {
      PerformanceRunAnywhere(tickers, PerformancePages(pages), a, b);
    }
  }

  /** Writing the performance table to `outputfile` instead of the suffixed path leaves the
      suffixed path without a file and puts the same table at `outputfile`. */
  lemma ScrapeWithMisplaces(output: string, performance: Run, risk: Run, profile: Run)
    requires WritesOnly(performance) && WritesOnly(risk) && WritesOnly(profile) && PathFree(performance)
    requires ScrapeWith(output, false, performance, risk, profile).error.None?
    ensures ScrapeWith(output, true, performance, risk, profile).error.None? && InsertSuffix(output, "_performance").Ok?
    ensures var pp := InsertSuffix(output, "_performance").value;
      var files := ScrapeWith(output, false, performance, risk, profile).files;
      pp !in files && output in files && pp in ScrapeWith(output, true, performance, risk, profile).files &&
      files[output] == ScrapeWith(output, true, performance, risk, profile).files[pp]
  {
    ScrapeWithFiles(output, false, performance, risk, profile);
    ScrapePathsDistinct(output);
    var pp := InsertSuffix(output, "_performance").value;
    assert performance(pp).Ok?;
    ScrapeWithFiles(output, true, performance, risk, profile);
  }

  /** The input that shows it: for "funds.csv" the announced performance file is
      "funds_performance.csv", which the scrape as written never writes. */
  lemma ScrapeAsWrittenExample()
    ensures InsertSuffix("funds.csv", "_performance") == Ok("funds_performance.csv")
  {
    FundsCsvParts();
    InsertSuffixHere("funds.csv", "_performance", "funds", "csv");
    assert "funds" + "_performance" + "." + "csv" == "funds_performance.csv";
  }

  /** A path with no directory part gets the suffix between its stem and its extension. */
  lemma InsertSuffixHere(path: string, suffix: string, stem: string, ext: string)
    requires Dirname(path) == "" && Split(Basename(path), '.') == [stem, ext] && ext != ""
    ensures InsertSuffix(path, suffix) == Ok(stem + suffix + "." + ext)
  {
    var b := stem + suffix + ("." + ext);
    assert Join("", b) == b;
    assert b == stem + suffix + "." + ext;
  }

  lemma FundsCsvParts()
    ensures Basename("funds.csv") == "funds.csv" && Dirname("funds.csv") == ""
    ensures Split("funds.csv", '.') == ["funds", "csv"]
  {
    FundsCsvNoSlash();
    FundsCsvSplit();
  }

  lemma FundsCsvNoSlash()
    ensures Basename("funds.csv") == "funds.csv" && Dirname("funds.csv") == ""
  {
    var p := "funds.csv";
    assert forall k :: 0 <= k < |p| ==> p[k] != '/';
    assert LastSlashEnd(p) == 0;
  }

  lemma FundsCsvSplit()
    ensures Split("funds.csv", '.') == ["funds", "csv"]
  {
    SplitPair("funds", "csv", '.');
    assert "funds" + ['.'] + "csv" == "funds.csv";
  }
}
