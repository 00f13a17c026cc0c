/** The clean-up pass of the Yahoo scraper (`standardize_profiles` and `standardize_risk` in
    src/yfnc_fundpage_scraper.py): the intermediate pipe-delimited file is read back row by
    row, the numeric columns of every row after the header are rewritten in place as numbers,
    and each row is written out. */
module YfncStandardise {
  import opened Wrappers
  import opened PyStrings
  import opened Decimal
  import opened AbstractScraper

  /** The characters `re.sub("[^\d\-\.]", "", s)` keeps. */
  const NumberChars: set<char> := set c: char | IsDigit(c) || c == '-' || c == '.'

  /** The characters the net-assets pattern `[^\d\-\.MB]` keeps. */
  const NetAssetsChars: set<char> := set c: char | IsDigit(c) || c == '-' || c == '.' || c == 'M' || c == 'B'

  /** The column of a profile row that holds net assets. */
  const NetAssetsColumn: nat := 3

  /** The profile columns rewritten as plain numbers: sales load, turnover and category
      turnover. */
  const ProfileFloatColumns: seq<nat> := [2, 9, 10]

  // ---------------------------------------------------------------------------------------
  // Single fields

  /** The net-assets rule: keep digits, '-', '.', 'M' and 'B', then scale (`Scaled`). */
  function NetAssets(raw: string): (r: Result<Cell>)
    ensures var t := KeepChars(raw, NetAssetsChars);
      (r.Ok? && r.value.Str? ==> r.value.s == t && !EndsWith(t, 'M') && !EndsWith(t, 'B')) &&
      (r.Ok? && r.value.Num? ==> EndsWith(t, 'M') || EndsWith(t, 'B')) &&
      (r.Err? ==> r.error == ValueError && (EndsWith(t, 'M') || EndsWith(t, 'B')))
  {
    Scaled(KeepChars(raw, NetAssetsChars))
  }

  /** A text ending in 'M' loses every 'M' and is read as millions; one ending in 'B' loses
      every 'B' and is read as billions (times 1000, so the unit stays millions); any other
      text stays text. */
  function Scaled(t: string): Result<Cell> {
    if EndsWith(t, 'M') || EndsWith(t, 'B') then
      var unit := t[|t| - 1];
      match Float(DeleteChars(t, {unit}))
      case Ok(x) => Ok(Num(if unit == 'M' then x else 1000.0 * x))
      case Err(e) => Err(e)
    else Ok(Str(t))
  }

  /** `if raw_field != "": record[col] = float(re.sub(pattern, "", raw_field))`: an empty text
      stays as it is, any other text becomes the number its kept characters spell, and a cell
      that already holds a number makes re.sub raise TypeError. */
  function FloatCell(c: Cell): (r: Result<Cell>)
    ensures c == Str("") ==> r == Ok(c)
    ensures c.Str? && c.s != "" ==>
      (r.Ok? <==> IsDecimalText(Strip(KeepChars(c.s, NumberChars)))) &&
      (r.Ok? ==> r.value.Num?) && (r.Err? ==> r.error == ValueError)
    ensures c.Num? ==> r == Err(TypeError)
  {
    match c
    case Num(_) => Err(TypeError)
    case Str(s, _) =>
      if s == "" then Ok(c)
      else
        match Float(KeepChars(s, NumberChars))
        case Ok(x) => Ok(Num(x))
        case Err(e) => Err(e)
  }

  /** The amounts the pages print as "<n>M" are n millions. */
  lemma NetAssetsMillions(n: nat)
    ensures NetAssets(NatToString(n) + "M") == Ok(Num(n as real))
  {
    ScaledAmount(n, 'M');
  }

  /** The amounts the pages print as "<n>B" are 1000 n millions. */
  lemma NetAssetsBillions(n: nat)
    ensures NetAssets(NatToString(n) + "B") == Ok(Num(1000.0 * n as real))
  {
    ScaledAmount(n, 'B');
    var t := NatToString(n) + "B";
    assert KeepChars(t, NetAssetsChars) == t;
    assert t[|t| - 1] == 'B';
    assert !EndsWith(t, 'M') && EndsWith(t, 'B');
  }

  lemma ScaledAmount(n: nat, unit: char)
    requires unit == 'M' || unit == 'B'
    ensures var t := NatToString(n) + [unit];
      KeepChars(t, NetAssetsChars) == t && DeleteChars(t, {unit}) == NatToString(n)
    ensures Float(NatToString(n)) == Ok(n as real)
  {
    var ds := NatToString(n);
    var t := ds + [unit];
    assert forall i :: 0 <= i < |ds| ==> IsDigit(ds[i]) && ds[i] in NumberChars;
    KeepCharsAll(t, NetAssetsChars);
    DeleteCharsConcat(ds, [unit], {unit});
    DeleteCharsNone(ds, {unit});
    ParseFloatRoundTrip(n);
  }

  /** Characters outside the net-assets pattern (thousands separators, currency signs,
      spaces) do not change the result. */
  lemma NetAssetsFiltered(raw: string)
    ensures NetAssets(raw) == NetAssets(KeepChars(raw, NetAssetsChars))
  {
    KeepCharsIdempotent(raw, NetAssetsChars);
  }

  /** A plain numeral in a numeric column becomes its number. */
  lemma FloatCellNumeral(n: nat)
    ensures FloatCell(Str(NatToString(n))) == Ok(Num(n as real))
  {
    var ds := NatToString(n);
    KeptIsStripped(ds, NumberChars);
    assert forall i :: 0 <= i < |ds| ==> IsDigit(ds[i]) && ds[i] in NumberChars;
    KeepCharsAll(ds, NumberChars);
    ParseFloatRoundTrip(n);
  }

  /** A non-empty field without a digit (a dash, a stray word) stops the clean-up with
      ValueError. */
  lemma FloatCellNeedsDigit(s: string)
    requires s != "" && forall i :: 0 <= i < |s| ==> !IsDigit(s[i])
    ensures FloatCell(Str(s)) == Err(ValueError)
  {
    KeptIsStripped(s, NumberChars);
    NoDigitKept(s, NumberChars);
  }

  lemma NoDigitKept(s: string, cs: set<char>)
    requires forall i :: 0 <= i < |s| ==> !IsDigit(s[i])
    ensures !IsDecimalText(KeepChars(s, cs))
  {
    var t := KeepChars(s, cs);
    KeepCharsMembers(s, cs);
    forall i | 0 <= i < |t| ensures !IsDigit(t[i]) {
      assert t[i] in t;
    }
    NoDigitNoNumber(t);
  }

  lemma NoDigitNoNumber(t: string)
    requires forall i :: 0 <= i < |t| ==> !IsDigit(t[i])
    ensures !IsDecimalText(t)
  {
    if IsDecimalText(t) {
      DecimalTextHasDigit(t);
    }
  }

  // ---------------------------------------------------------------------------------------
  // Rows

  /** The column loop `for col in cols: ...` applied to a row's cells in list order, each
      listed cell replaced by `conv` of it; a column past the end of the row raises IndexError
      and the first failure ends the loop. */
  function ColumnsConverted(cells: seq<Cell>, cols: seq<nat>, conv: Cell -> Result<Cell>)
    : (r: Result<seq<Cell>>)
    ensures r.Ok? ==> |r.value| == |cells|
    decreases |cols|
  {
    if cols == [] then Ok(cells)
    else
      match ColumnsConverted(cells, cols[..|cols| - 1], conv)
      case Err(e) => Err(e)
      case Ok(cs) =>
        var col := cols[|cols| - 1];
        if col >= |cs| then Err(IndexError)
        else
          match conv(cs[col])
          case Err(e) => Err(e)
          case Ok(c) => Ok(cs[col := c])
  }

  /** Column `col` of `cells` stops the loop with `e`: it is past the end of the row, or its
      conversion raises `e`. */
  predicate ColumnFails(cells: seq<Cell>, col: nat, conv: Cell -> Result<Cell>, e: PyError) {
    if col < |cells| then conv(cells[col]) == Err(e) else e == IndexError
  }

  predicate DistinctColumns(cols: seq<nat>) {
    forall i, j :: 0 <= i < j < |cols| ==> cols[i] != cols[j]
  }

  /** With no column listed twice, the loop succeeds exactly when every listed column exists
      and converts; it then rewrites exactly the listed columns. */
  lemma {:induction false} ColumnsConvertedSpec(cells: seq<Cell>, cols: seq<nat>, conv: Cell -> Result<Cell>)
    requires DistinctColumns(cols)
    ensures ColumnsConverted(cells, cols, conv).Ok? <==>
      forall i :: 0 <= i < |cols| ==> cols[i] < |cells| && conv(cells[cols[i]]).Ok?
    ensures ColumnsConverted(cells, cols, conv).Ok? ==>
      forall i :: 0 <= i < |cols| ==> ColumnsConverted(cells, cols, conv).value[cols[i]] == conv(cells[cols[i]]).value
    ensures ColumnsConverted(cells, cols, conv).Ok? ==>
      forall j :: 0 <= j < |cells| && j !in cols ==> ColumnsConverted(cells, cols, conv).value[j] == cells[j]
    decreases |cols|
  {
    if cols != [] {
      var front := cols[..|cols| - 1];
      var col := cols[|cols| - 1];
      assert forall i :: 0 <= i < |front| ==> front[i] == cols[i];
      ColumnsConvertedSpec(cells, front, conv);
      assert col !in front;
    }
  }

  /** When the loop fails, some listed column is past the end of the row or fails to convert,
      and the loop raises what that column raised. */
  lemma {:induction false} ColumnsConvertedError(cells: seq<Cell>, cols: seq<nat>, conv: Cell -> Result<Cell>)
    requires DistinctColumns(cols)
    requires ColumnsConverted(cells, cols, conv).Err?
    ensures var e := ColumnsConverted(cells, cols, conv).error;
      exists i :: 0 <= i < |cols| && ColumnFails(cells, cols[i], conv, e)
    decreases |cols|
  {
    var front := cols[..|cols| - 1];
    var col := cols[|cols| - 1];
    assert forall i :: 0 <= i < |front| ==> front[i] == cols[i];
    var e := ColumnsConverted(cells, cols, conv).error;
    if ColumnsConverted(cells, front, conv).Err? {
      ColumnsConvertedError(cells, front, conv);
      var i :| 0 <= i < |front| && ColumnFails(cells, front[i], conv, e);
      assert cols[i] == front[i];
    } else {
      ColumnsConvertedSpec(cells, front, conv);
      assert col !in front;
      assert ColumnFails(cells, cols[|cols| - 1], conv, e);
    }
  }

  /** One profile row: net assets first, then the plain numeric columns. A row too short for
      column 3 raises IndexError before anything else. */
  function ProfileRowStandardised(row: seq<string>): (r: Result<seq<Cell>>)
    ensures r.Ok? ==> |r.value| == |row|
  {
    if |row| <= NetAssetsColumn then Err(IndexError)
    else
      match NetAssets(row[NetAssetsColumn])
      case Err(e) => Err(e)
      case Ok(c) => ColumnsConverted(TextCells(row)[NetAssetsColumn := c], ProfileFloatColumns, FloatCell)
  }

  /** A profile row is standardised exactly when it reaches column 10, its net assets parse
      and its three numeric columns convert; the result holds the converted values in those
      four columns and the row's own text everywhere else. */
  lemma ProfileRowSpec(row: seq<string>)
    ensures ProfileRowStandardised(row).Ok? <==>
      |row| > 10 && NetAssets(row[3]).Ok? &&
      FloatCell(Str(row[2])).Ok? && FloatCell(Str(row[9])).Ok? && FloatCell(Str(row[10])).Ok?
    ensures ProfileRowStandardised(row).Ok? ==>
      var out := ProfileRowStandardised(row).value;
      out[3] == NetAssets(row[3]).value &&
      out[2] == FloatCell(Str(row[2])).value && out[9] == FloatCell(Str(row[9])).value &&
      out[10] == FloatCell(Str(row[10])).value &&
      forall j :: 0 <= j < |row| && j !in {2, 3, 9, 10} ==> out[j] == Str(row[j])
  {
    if |row| > 3 && NetAssets(row[3]).Ok? {
      ProfileColumns(row, NetAssets(row[3]).value);
    }
  }

  /** The column loop over three distinct columns `[a, b, d]`. */
  lemma ThreeColumns(cells: seq<Cell>, a: nat, b: nat, d: nat, conv: Cell -> Result<Cell>)
    requires a != b && a != d && b != d
    ensures var r := ColumnsConverted(cells, [a, b, d], conv);
      (r.Ok? <==>
         (a < |cells| && b < |cells| && d < |cells| &&
          conv(cells[a]).Ok? && conv(cells[b]).Ok? && conv(cells[d]).Ok?)) &&
      (r.Ok? ==>
         (r.value[a] == conv(cells[a]).value && r.value[b] == conv(cells[b]).value &&
          r.value[d] == conv(cells[d]).value &&
          forall j :: 0 <= j < |cells| && j != a && j != b && j != d ==> r.value[j] == cells[j]))
  {
    var cols := [a, b, d];
    assert cols[0] == a && cols[1] == b && cols[2] == d;
    assert DistinctColumns(cols);
    ColumnsConvertedSpec(cells, cols, conv);
    var r := ColumnsConverted(cells, cols, conv);
    if r.Ok? {
      forall j | 0 <= j < |cells| && j != a && j != b && j != d ensures r.value[j] == cells[j] {
        assert j !in cols;
      }
    }
  }

  /** The numeric-column loop of a profile row whose net assets became `c`. */
  lemma ProfileColumns(row: seq<string>, c: Cell)
    requires |row| > 3
    ensures var conv := ColumnsConverted(TextCells(row)[3 := c], ProfileFloatColumns, FloatCell);
      (conv.Ok? <==>
        (|row| > 10 &&
         FloatCell(Str(row[2])).Ok? && FloatCell(Str(row[9])).Ok? && FloatCell(Str(row[10])).Ok?)) &&
      (conv.Ok? ==>
        conv.value[3] == c &&
        conv.value[2] == FloatCell(Str(row[2])).value && conv.value[9] == FloatCell(Str(row[9])).value &&
        conv.value[10] == FloatCell(Str(row[10])).value &&
        forall j :: 0 <= j < |row| && j !in {2, 3, 9, 10} ==> conv.value[j] == Str(row[j]))
  {
    var cells := TextCells(row)[3 := c];
    ThreeColumns(cells, 2, 9, 10, FloatCell);
    if |row| > 10 {
      assert cells[2] == Str(row[2]) && cells[9] == Str(row[9]) && cells[10] == Str(row[10]);
    }
  }

  /** A row that reaches column 10 can only fail to standardise with ValueError, from a
      net-assets or numeric field that does not spell a number. */
  lemma ProfileRowErrors(row: seq<string>)
    requires |row| > 10 && ProfileRowStandardised(row).Err?
    ensures ProfileRowStandardised(row).error == ValueError
  {
    if NetAssets(row[3]).Ok? {
      ProfileColumnsErrors(row, NetAssets(row[3]).value);
    }
  }

  lemma ProfileColumnsErrors(row: seq<string>, c: Cell)
    requires |row| > 10 && ColumnsConverted(TextCells(row)[3 := c], ProfileFloatColumns, FloatCell).Err?
    ensures ColumnsConverted(TextCells(row)[3 := c], ProfileFloatColumns, FloatCell).error == ValueError
  {
    var cells := TextCells(row)[3 := c];
    var e := ColumnsConverted(cells, ProfileFloatColumns, FloatCell).error;
    ColumnsConvertedError(cells, ProfileFloatColumns, FloatCell);
    var i :| 0 <= i < 3 && ColumnFails(cells, ProfileFloatColumns[i], FloatCell, e);
    assert ProfileFloatColumns[i] in {2, 9, 10};
    assert cells[ProfileFloatColumns[i]] == Str(row[ProfileFloatColumns[i]]);
  }

  /** `standardize_risk` on one row: the listed columns in list order. */
  function RiskRowStandardiser(cols: seq<nat>): seq<string> -> Result<seq<Cell>> {
    row => ColumnsConverted(TextCells(row), cols, FloatCell)
  }

  /** When every listed column exists, a risk row can only fail with ValueError. */
  lemma RiskRowErrors(row: seq<string>, cols: seq<nat>)
    requires DistinctColumns(cols) && forall i :: 0 <= i < |cols| ==> cols[i] < |row|
    requires RiskRowStandardiser(cols)(row).Err?
    ensures RiskRowStandardiser(cols)(row).error == ValueError
  {
    var e := RiskRowStandardiser(cols)(row).error;
    ColumnsConvertedError(TextCells(row), cols, FloatCell);
    var i :| 0 <= i < |cols| && ColumnFails(TextCells(row), cols[i], FloatCell, e);
    assert TextCells(row)[cols[i]] == Str(row[cols[i]]);
  }

  // ---------------------------------------------------------------------------------------
  // Files

  /** The rows after the header, each standardised in turn; the first failure ends the pass. */
  function StandardisedRows(rows: seq<seq<string>>, std: seq<string> -> Result<seq<Cell>>)
    : (r: Result<seq<seq<Cell>>>)
    ensures r.Ok? ==> |r.value| == |rows|
    decreases |rows|
  {
    if rows == [] then Ok([])
    else
      match StandardisedRows(rows[..|rows| - 1], std)
      case Err(e) => Err(e)
      case Ok(done) =>
        match std(rows[|rows| - 1])
        case Err(e) => Err(e)
        case Ok(row) => Ok(done + [row])
  }

  /** A whole file: `reader.next()` on an empty file raises StopIteration; otherwise the header
      is copied and every later row standardised. */
  function StandardisedFile(rows: seq<seq<string>>, std: seq<string> -> Result<seq<Cell>>)
    : (r: Result<seq<seq<Cell>>>)
    ensures rows == [] ==> r == Err(StopIteration)
    ensures r.Ok? ==> |r.value| == |rows| && r.value[0] == TextCells(rows[0])
  {
    if rows == [] then Err(StopIteration)
    else
      match StandardisedRows(rows[1..], std)
      case Err(e) => Err(e)
      case Ok(body) => Ok([TextCells(rows[0])] + body)
  }

  /** The pass succeeds exactly when the file has a header and every later row standardises;
      row i of the output is then row i of the input, standardised. */
  lemma {:induction false} StandardisedRowsSpec(rows: seq<seq<string>>, std: seq<string> -> Result<seq<Cell>>)
    ensures StandardisedRows(rows, std).Ok? <==> forall i :: 0 <= i < |rows| ==> std(rows[i]).Ok?
    ensures StandardisedRows(rows, std).Ok? ==>
      forall i :: 0 <= i < |rows| ==> StandardisedRows(rows, std).value[i] == std(rows[i]).value
    ensures StandardisedRows(rows, std).Err? ==>
      exists i :: 0 <= i < |rows| && std(rows[i]) == Err(StandardisedRows(rows, std).error)
    decreases |rows|
  {
    if rows != [] {
      var front := rows[..|rows| - 1];
      StandardisedRowsSpec(front, std);
      assert forall i :: 0 <= i < |front| ==> front[i] == rows[i];
    }
  }

  lemma StandardisedFileSpec(rows: seq<seq<string>>, std: seq<string> -> Result<seq<Cell>>)
    ensures StandardisedFile(rows, std).Ok? <==>
      rows != [] && forall i :: 1 <= i < |rows| ==> std(rows[i]).Ok?
    ensures StandardisedFile(rows, std).Ok? ==>
      forall i :: 1 <= i < |rows| ==> StandardisedFile(rows, std).value[i] == std(rows[i]).value
    ensures StandardisedFile(rows, std).Err? && rows != [] ==>
      exists i :: 1 <= i < |rows| && std(rows[i]) == Err(StandardisedFile(rows, std).error)
  {
    if rows != [] {
      StandardisedRowsSpec(rows[1..], std);
      assert forall i :: 1 <= i < |rows| ==> rows[1..][i - 1] == rows[i];
    }
  }

  // ---------------------------------------------------------------------------------------
  // The in-place passes

  /** Once the loop over a prefix of the columns has failed, the whole loop fails the same
      way. */
  lemma {:induction false} ConvertedErrorSticks(cells: seq<Cell>, cols: seq<nat>, conv: Cell -> Result<Cell>, n: nat)
    requires n <= |cols| && ColumnsConverted(cells, cols[..n], conv).Err?
    ensures ColumnsConverted(cells, cols, conv) == ColumnsConverted(cells, cols[..n], conv)
    decreases |cols|
  {
    if n < |cols| {
      var front := cols[..|cols| - 1];
      assert front[..n] == cols[..n];
      ConvertedErrorSticks(cells, front, conv, n);
    } else {
      assert cols[..n] == cols;
    }
  }

  /** One more column of the loop, after the first `k` have been converted to `cs`. */
  lemma ConvertedStep(cells: seq<Cell>, cols: seq<nat>, k: nat, cs: seq<Cell>, conv: Cell -> Result<Cell>)
    requires k < |cols| && ColumnsConverted(cells, cols[..k], conv) == Ok(cs)
    ensures ColumnsConverted(cells, cols[..k + 1], conv) ==
      if cols[k] >= |cs| then Err(IndexError)
      else match conv(cs[cols[k]])
        case Err(e) => Err(e)
        case Ok(c) => Ok(cs[cols[k] := c])
  {
    assert cols[..k + 1][..k] == cols[..k];
  }

  /** The row `now` is `cells` with some proper prefix of the columns `cols` converted. */
  ghost predicate PartlyConverted(cells: seq<Cell>, cols: seq<nat>, conv: Cell -> Result<Cell>, now: seq<Cell>) {
    exists n :: 0 <= n < |cols| && ColumnsConverted(cells, cols[..n], conv) == Ok(now)
  }

  /** The loop fails at column `k`: the whole loop fails the same way, with the columns before
      `k` converted. */
  lemma ConvertedFails(cells: seq<Cell>, cols: seq<nat>, k: nat, cs: seq<Cell>, conv: Cell -> Result<Cell>)
    requires k < |cols| && ColumnsConverted(cells, cols[..k], conv) == Ok(cs)
    requires ColumnsConverted(cells, cols[..k + 1], conv).Err?
    ensures ColumnsConverted(cells, cols, conv) == ColumnsConverted(cells, cols[..k + 1], conv)
    ensures PartlyConverted(cells, cols, conv, cs)
  {
    ConvertedErrorSticks(cells, cols, conv, k + 1);
  }

  /** `for col in cols: raw_field = record[col]; if raw_field != "": record[col] = float(...)`
      on the row held in `record`. On failure the exception is returned and the row is left
      partly rewritten: the columns before the failing one are converted. */
  method ConvertColumns(record: array<Cell>, cols: seq<nat>) returns (err: Option<PyError>)
    modifies record
    ensures match ColumnsConverted(old(record[..]), cols, FloatCell)
      case Ok(cs) => err == None && record[..] == cs
      case Err(e) => err == Some(e) && PartlyConverted(old(record[..]), cols, FloatCell, record[..])
  {
    ghost var start := record[..];
    var k := 0;
    while k < |cols|
      invariant 0 <= k <= |cols|
      invariant ColumnsConverted(start, cols[..k], FloatCell) == Ok(record[..])
    {
      var col := cols[k];
      ConvertedStep(start, cols, k, record[..], FloatCell);
      if col >= record.Length {
        ConvertedFails(start, cols, k, record[..], FloatCell);
        return Some(IndexError);
      }
      var rawField := record[col];
      if rawField != Str("") {
        var converted := FloatCell(rawField);
        if converted.Err? {
          ConvertedFails(start, cols, k, record[..], FloatCell);
          return Some(converted.error);
        }
        record[col] := converted.value;
      } else {
        assert record[..][col := rawField] == record[..];
      }
      k := k + 1;
    }
    assert cols[..k] == cols;
    return None;
  }

  /** The body of the `standardize_profiles` loop: the row is held in an array and its
      net-assets and numeric columns are overwritten in place. */
  method StandardiseProfileRecord(row: seq<string>) returns (res: Result<seq<Cell>>)
    ensures res == ProfileRowStandardised(row)
  {
    var record := new Cell[|row|](i requires 0 <= i < |row| => Str(row[i]));
    assert record[..] == TextCells(row);
    if record.Length <= NetAssetsColumn {
      return Err(IndexError);
    }
    var netAssets := NetAssets(record[NetAssetsColumn].s);
    if netAssets.Err? {
      return Err(netAssets.error);
    }
    record[NetAssetsColumn] := netAssets.value;
    assert record[..] == TextCells(row)[NetAssetsColumn := netAssets.value];
    var err := ConvertColumns(record, ProfileFloatColumns);
    if err.Some? {
      return Err(err.value);
    }
    return Ok(record[..]);
  }

  /** The body of the `standardize_risk` loop: the listed columns of the row are overwritten
      in place, in list order. */
  method StandardiseRiskRecord(row: seq<string>, cols: seq<nat>) returns (res: Result<seq<Cell>>)
    ensures res == RiskRowStandardiser(cols)(row)
  {
    var record := new Cell[|row|](i requires 0 <= i < |row| => Str(row[i]));
    assert record[..] == TextCells(row);
    var err := ConvertColumns(record, cols);
    if err.Some? {
      return Err(err.value);
    }
    return Ok(record[..]);
  }

  /** Once the rows before some point have failed, the whole pass fails the same way. */
  lemma {:induction false} RowsErrorSticks(rows: seq<seq<string>>, std: seq<string> -> Result<seq<Cell>>, n: nat)
    requires n <= |rows| && StandardisedRows(rows[..n], std).Err?
    ensures StandardisedRows(rows, std) == StandardisedRows(rows[..n], std)
    decreases |rows|
  {
    if n < |rows| {
      var front := rows[..|rows| - 1];
      assert front[..n] == rows[..n];
      RowsErrorSticks(front, std, n);
    } else {
      assert rows[..n] == rows;
    }
  }

  lemma RowsExtend(rows: seq<seq<string>>, std: seq<string> -> Result<seq<Cell>>, i: nat, body: seq<seq<Cell>>)
    requires 1 <= i < |rows| && StandardisedRows(rows[1..i], std) == Ok(body) && std(rows[i]).Ok?
    ensures StandardisedRows(rows[1..i + 1], std) == Ok(body + [std(rows[i]).value])
  {
    assert rows[1..i + 1][..i - 1] == rows[1..i];
  }

  lemma RowsFail(rows: seq<seq<string>>, std: seq<string> -> Result<seq<Cell>>, i: nat, body: seq<seq<Cell>>)
    requires 1 <= i < |rows| && StandardisedRows(rows[1..i], std) == Ok(body) && std(rows[i]).Err?
    ensures StandardisedFile(rows, std) == Err(std(rows[i]).error)
  {
    assert rows[1..i + 1][..i - 1] == rows[1..i];
    assert rows[1..][..i] == rows[1..i + 1];
    RowsErrorSticks(rows[1..], std, i);
  }

  lemma RowsDone(rows: seq<seq<string>>, std: seq<string> -> Result<seq<Cell>>, body: seq<seq<Cell>>)
    requires 1 <= |rows| && StandardisedRows(rows[1..|rows|], std) == Ok(body)
    ensures StandardisedFile(rows, std) == Ok([TextCells(rows[0])] + body)
  {
    assert rows[1..|rows|] == rows[1..];
  }

  /** `standardize_profiles(inputfile_name, outputfile_name)`: the rows of the input file in,
      the rows of the output file out. */
  method StandardiseProfiles(rows: seq<seq<string>>) returns (res: Result<seq<seq<Cell>>>)
    ensures res == StandardisedFile(rows, ProfileRowStandardised)
  {
    if rows == [] {
      return Err(StopIteration);
    }
    var header := rows[0];
    var body: seq<seq<Cell>> := [];
    var i := 1;
    while i < |rows|
      invariant 1 <= i <= |rows|
      invariant StandardisedRows(rows[1..i], ProfileRowStandardised) == Ok(body)
    {
      var record := StandardiseProfileRecord(rows[i]);
      if record.Err? {
        RowsFail(rows, ProfileRowStandardised, i, body);
        return Err(record.error);
      }
      RowsExtend(rows, ProfileRowStandardised, i, body);
      body := body + [record.value];
      i := i + 1;
    }
    RowsDone(rows, ProfileRowStandardised, body);
    return Ok([TextCells(header)] + body);
  }

  /** `standardize_risk(inputfile_name, outputfile_name, cols_to_stdize)`. */
  method StandardiseRisk(rows: seq<seq<string>>, cols: seq<nat>) returns (res: Result<seq<seq<Cell>>>)
    ensures res == StandardisedFile(rows, RiskRowStandardiser(cols))
  {
    if rows == [] {
      return Err(StopIteration);
    }
    var header := rows[0];
    var body: seq<seq<Cell>> := [];
    var i := 1;
    while i < |rows|
      invariant 1 <= i <= |rows|
      invariant StandardisedRows(rows[1..i], RiskRowStandardiser(cols)) == Ok(body)
    {
      var record := StandardiseRiskRecord(rows[i], cols);
      if record.Err? {
        RowsFail(rows, RiskRowStandardiser(cols), i, body);
        return Err(record.error);
      }
      RowsExtend(rows, RiskRowStandardiser(cols), i, body);
      body := body + [record.value];
      i := i + 1;
    }
    RowsDone(rows, RiskRowStandardiser(cols), body);
    return Ok([TextCells(header)] + body);
  }
}
