/** What the scrapers share (src/abstract_scraper.py): output cells and records, the
    pipe-delimited writer, the suffixed file names and the ticker list. */
module AbstractScraper {
  import opened Wrappers
  import opened PyStrings

  /** A value in an output record: a text, or a number after standardisation (an exact real;
      IEEE rounding is not modelled). Python 2 has two kinds of text, and `unicode` tells them
      apart: the text of a page element is unicode; the ticker read from the ticker list, a
      field read back from a file, a literal and a text the code has encoded to ASCII are
      byte strings. Only unicode text is encoded when it is written. */
  datatype Cell = Str(s: string, unicode: bool := false) | Num(x: real)

  /** The unicode text `s`, as BeautifulSoup hands it over. */
  function Unicode(s: string): Cell {
    Str(s, true)
  }

  /** One output record: field name to value (a Python dict). */
  type Record = map<string, Cell>

  // ---------------------------------------------------------------------------------------
  // os.path on POSIX paths

  /** One past the index of the last `/` in `p`, or 0 when `p` holds none. */
  function LastSlashEnd(p: string): (e: nat)
    ensures e <= |p|
    ensures e > 0 ==> p[e - 1] == '/'
    ensures forall k :: e <= k < |p| ==> p[k] != '/'
  {
    if p == [] then 0 else if p[|p| - 1] == '/' then |p| else LastSlashEnd(p[..|p| - 1])
  }

  predicate AllSlashes(s: string) { forall k :: 0 <= k < |s| ==> s[k] == '/' }

  /** `s.rstrip("/")` */
  function StripTrailingSlashes(s: string): (r: string)
    ensures r == [] || r[|r| - 1] != '/'
    ensures r <= s && forall k :: |r| <= k < |s| ==> s[k] == '/'
  {
    if s != [] && s[|s| - 1] == '/' then StripTrailingSlashes(s[..|s| - 1]) else s
  }

  /** `os.path.dirname(p)`: everything up to the last `/`, with trailing slashes removed
      unless it consists of slashes only. */
  function Dirname(p: string): string {
    var head := p[..LastSlashEnd(p)];
    if head != [] && !AllSlashes(head) then StripTrailingSlashes(head) else head
  }

  /** `os.path.basename(p)`: everything after the last `/`. */
  function Basename(p: string): (b: string)
    ensures '/' !in b
  {
    p[LastSlashEnd(p)..]
  }

  /** `os.path.join(a, b)` */
  function Join(a: string, b: string): string {
    if b != [] && b[0] == '/' then b
    else if a == [] || a[|a| - 1] == '/' then a + b
    else a + "/" + b
  }

  /** `insert_suffix(path, suffix)`: the base name must split on `.` into exactly two pieces
      (otherwise the tuple unpacking raises ValueError); the suffix goes between them and the
      `.` is put back only when the extension is not empty. */
  function InsertSuffix(path: string, suffix: string): Result<string> {
    var parts := Split(Basename(path), '.');
    if |parts| != 2 then Err(ValueError)
    else
      var ext := if parts[1] != "" then "." + parts[1] else "";
      Ok(Join(Dirname(path), parts[0] + suffix + ext))
  }

  /** The shapes `Dirname` can return: empty, only slashes, or not ending in a slash. */
  predicate IsDirname(d: string) {
    d == [] || AllSlashes(d) || d[|d| - 1] != '/'
  }

  lemma DirnameShape(p: string)
    ensures IsDirname(Dirname(p))
  {
  }

  /** Joining a directory name with a slash-free name can be taken apart again by
      `dirname` and `basename`. */
  lemma {:induction false} JoinSplits(d: string, b: string)
    requires IsDirname(d) && '/' !in b
    ensures Dirname(Join(d, b)) == d && Basename(Join(d, b)) == b
  {
    var j := Join(d, b);
    if d == [] {
      assert j == b;
      NoSlashEnd(b);
    } else if AllSlashes(d) {
      assert j == d + b;
      SlashEnd(d, b);
      assert j[..|d|] == d;
    } else {
      assert j == (d + "/") + b;
      SlashEnd(d + "/", b);
      assert j[..|d| + 1] == d + "/";
      assert !AllSlashes(d + "/") by {
        assert (d + "/")[|d| - 1] != '/';
      }
      StripOneSlash(d);
    }
  }

  lemma NoSlashEnd(b: string)
    requires '/' !in b
    ensures LastSlashEnd(b) == 0
  {
    if LastSlashEnd(b) > 0 {
      assert b[LastSlashEnd(b) - 1] == '/';
    }
  }

  lemma {:induction false} SlashEnd(d: string, b: string)
    requires d != [] && d[|d| - 1] == '/' && '/' !in b
    ensures LastSlashEnd(d + b) == |d|
    decreases |b|
  {
    if b == [] {
      assert d + b == d;
    } else {
      var j := d + b;
      assert j[|j| - 1] == b[|b| - 1];
      assert j[..|j| - 1] == d + b[..|b| - 1];
      SlashEnd(d, b[..|b| - 1]);
    }
  }

  lemma StripOneSlash(d: string)
    requires d != [] && d[|d| - 1] != '/'
    ensures StripTrailingSlashes(d + "/") == d
  {
    assert (d + "/")[..|d|] == d;
  }

  /** `insert_suffix` succeeds exactly when the base name holds exactly one `.`. */
  lemma InsertSuffixSucceeds(path: string, suffix: string)
    ensures InsertSuffix(path, suffix).Ok? <==> Count(Basename(path), '.') == 1
  {
    SplitCount(Basename(path), '.');
  }

  /** The base name `insert_suffix` builds from `base`: the part before its first `.`, the
      suffix, then `.` and the rest when the rest is not empty. */
  function SuffixedName(base: string, suffix: string): string {
    var dot := IndexOf(base, '.');
    var ext := if dot < |base| then base[dot + 1..] else "";
    base[..dot] + suffix + (if ext == "" then "" else "." + ext)
  }

  /** On success the directory part is unchanged and the new base name is the old name, the
      suffix and then `.` and the extension, the `.` only when the extension is not empty. */
  lemma InsertSuffixKeepsDirectory(path: string, suffix: string)
    requires '/' !in suffix
    requires InsertSuffix(path, suffix).Ok?
    ensures IndexOf(Basename(path), '.') < |Basename(path)|
    ensures Dirname(InsertSuffix(path, suffix).value) == Dirname(path)
    ensures Basename(InsertSuffix(path, suffix).value) == SuffixedName(Basename(path), suffix)
  {
    var base := Basename(path);
    var dot := IndexOf(base, '.');
    SplitTwo(base, '.');
    var b := SuffixedName(base, suffix);
    assert InsertSuffix(path, suffix) == Ok(Join(Dirname(path), b));
    SlashFree(base, dot, suffix);
    DirnameShape(path);
    JoinSplits(Dirname(path), b);
  }

  /** A split into exactly two pieces is a split at the first occurrence. */
  lemma SplitTwo(s: string, c: char)
    requires |Split(s, c)| == 2
    ensures IndexOf(s, c) < |s|
    ensures Split(s, c) == [s[..IndexOf(s, c)], s[IndexOf(s, c) + 1..]]
  {
    var i := IndexOf(s, c);
    var rest := s[i + 1..];
    assert IndexOf(rest, c) == |rest|;
  }

  /** The new base name holds no `/` when neither the old one nor the suffix does. */
  lemma SlashFree(base: string, dot: nat, suffix: string)
    requires '/' !in base && '/' !in suffix && dot < |base|
    ensures var rest := base[dot + 1..];
      '/' !in base[..dot] + suffix + (if rest != "" then "." + rest else "")
  {
    var rest := base[dot + 1..];
    forall k | 0 <= k < dot ensures base[..dot][k] != '/' {
      assert base[k] in base;
    }
    forall k | 0 <= k < |rest| ensures rest[k] != '/' {
      assert rest[k] == base[dot + 1 + k] && base[dot + 1 + k] in base;
    }
  }

  /** A suffix that does not start with `.` moves the file: the new path differs from the
      old one. */
  lemma InsertSuffixMoves(path: string, suffix: string)
    requires '/' !in suffix && suffix != [] && suffix[0] != '.'
    requires InsertSuffix(path, suffix).Ok?
    ensures InsertSuffix(path, suffix).value != path
  {
    InsertSuffixKeepsDirectory(path, suffix);
    SuffixedNameDiffers(Basename(path), suffix);
  }

  /** Two suffixes that differ at some position give two different paths. */
  lemma InsertSuffixesDiffer(path: string, s1: string, s2: string, k: nat)
    requires '/' !in s1 && '/' !in s2 && k < |s1| && k < |s2| && s1[k] != s2[k]
    requires InsertSuffix(path, s1).Ok? && InsertSuffix(path, s2).Ok?
    ensures InsertSuffix(path, s1).value != InsertSuffix(path, s2).value
  {
    InsertSuffixKeepsDirectory(path, s1);
    InsertSuffixKeepsDirectory(path, s2);
    SuffixedNamesDiffer(Basename(path), s1, s2, k);
  }

  /** A suffix not starting with `.` changes a name holding a `.`: where the `.` was, the
      suffix now begins. */
  lemma SuffixedNameDiffers(base: string, suffix: string)
    requires IndexOf(base, '.') < |base| && suffix != [] && suffix[0] != '.'
    ensures SuffixedName(base, suffix) != base
  {
    var dot := IndexOf(base, '.');
    assert SuffixedName(base, suffix)[dot] == suffix[0];
  }

  lemma SuffixedNamesDiffer(base: string, s1: string, s2: string, k: nat)
    requires k < |s1| && k < |s2| && s1[k] != s2[k]
    ensures SuffixedName(base, s1) != SuffixedName(base, s2)
  {
    var dot := IndexOf(base, '.');
    var ext := if dot < |base| then base[dot + 1..] else "";
    ConcatsDiffer(base[..dot], s1, if ext == "" then "" else "." + ext, s2, if ext == "" then "" else "." + ext, k);
  }

  lemma ConcatsDiffer(pre: string, a: string, x: string, b: string, y: string, k: nat)
    requires k < |a| && k < |b| && a[k] != b[k]
    ensures pre + a + x != pre + b + y
  {
    assert (pre + a + x)[|pre| + k] == a[k];
    assert (pre + b + y)[|pre| + k] == b[k];
  }

  // ---------------------------------------------------------------------------------------
  // The pipe-delimited writer (csv.DictWriter with delimiter '|')

  /** A record can be written under `fields` only when it has no key outside them;
      otherwise DictWriter.writerow raises ValueError. */
  predicate FitsHeader(rec: Record, fields: seq<string>) {
    forall k :: k in rec ==> k in fields
  }

  /** The row written for `rec`: its value for each field, `""` where it has none. */
  function RowOf(fields: seq<string>, rec: Record): (row: seq<Cell>)
    ensures |row| == |fields|
    ensures forall j :: 0 <= j < |fields| ==>
      row[j] == if fields[j] in rec then rec[fields[j]] else Str("")
  {
    seq(|fields|, j requires 0 <= j < |fields| => if fields[j] in rec then rec[fields[j]] else Str(""))
  }

  function HeaderRow(fields: seq<string>): (row: seq<Cell>)
    ensures |row| == |fields| && forall j :: 0 <= j < |fields| ==> row[j] == Str(fields[j])
  {
    seq(|fields|, j requires 0 <= j < |fields| => Str(fields[j]))
  }

  /** A record whose values the writer can encode. Python 2's csv module writes a byte string
      as it is, and turns a unicode value into a byte string with the ASCII codec, which
      raises UnicodeEncodeError on any other character. The key does not matter: a `ticker`
      taken from a page is unicode like any other page value. */
  predicate Encodable(rec: Record) {
    forall k :: k in rec && rec[k].Str? && rec[k].unicode ==> IsAscii(rec[k].s)
  }

  /** A record `writerow` writes under `fields`. */
  predicate Writable(rec: Record, fields: seq<string>) {
    FitsHeader(rec, fields) && Encodable(rec)
  }

  /** What `writerow` raises for a record it cannot write: the key check of DictWriter comes
      before any value is encoded. */
  function WriteError(rec: Record, fields: seq<string>): (e: PyError)
    requires !Writable(rec, fields)
    ensures e == ValueError <==> !FitsHeader(rec, fields)
    ensures e == UnicodeEncodeError <==> FitsHeader(rec, fields) && !Encodable(rec)
  {
    if FitsHeader(rec, fields) then UnicodeEncodeError else ValueError
  }

  /** The position of the first record `writerow` refuses, or `|records|` when it refuses
      none. */
  function FirstUnwritable(fields: seq<string>, records: seq<Record>): (n: nat)
    ensures n <= |records|
    ensures forall i :: 0 <= i < n ==> Writable(records[i], fields)
    ensures n < |records| ==> !Writable(records[n], fields)
  {
    FirstUnwritableFrom(fields, records, 0)
  }

  function FirstUnwritableFrom(fields: seq<string>, records: seq<Record>, start: nat): (n: nat)
    requires start <= |records|
    requires forall i :: 0 <= i < start ==> Writable(records[i], fields)
    ensures start <= n <= |records|
    ensures forall i :: 0 <= i < n ==> Writable(records[i], fields)
    ensures n < |records| ==> !Writable(records[n], fields)
    decreases |records| - start
  {
    if start == |records| || !Writable(records[start], fields) then start
    else FirstUnwritableFrom(fields, records, start + 1)
  }

  /** The table `writecsv` puts in its file: the header first, then one row per record in list
      order. The first record `writerow` refuses stops it: ValueError for a key outside the
      header, UnicodeEncodeError for a text it cannot encode. */
  function CsvTable(fields: seq<string>, records: seq<Record>): (r: Result<seq<seq<Cell>>>)
    ensures r.Ok? <==> forall i :: 0 <= i < |records| ==> Writable(records[i], fields)
    ensures r.Err? ==>
      var n := FirstUnwritable(fields, records);
      n < |records| && r.error == WriteError(records[n], fields)
    ensures r.Err? ==> r.error in {ValueError, UnicodeEncodeError}
    ensures r.Ok? ==> |r.value| == |records| + 1 && r.value[0] == HeaderRow(fields)
    ensures r.Ok? ==> forall i :: 0 <= i < |records| ==> r.value[i + 1] == RowOf(fields, records[i])
  {
    var n := FirstUnwritable(fields, records);
    if n == |records| then
      Ok([HeaderRow(fields)] + seq(|records|, i requires 0 <= i < |records| => RowOf(fields, records[i])))
    else Err(WriteError(records[n], fields))
  }

  /** `writecsv(csvfields, funddata, outputfile)`: writes the header, then each record in turn.
      The rows are returned instead of written; the delimiter, quoting and number formatting
      of the file are not modelled. */
  method WriteCsv(fields: seq<string>, records: seq<Record>) returns (res: Result<seq<seq<Cell>>>)
    ensures res == CsvTable(fields, records)
  {
    var rows := [HeaderRow(fields)];
    var i := 0;
    while i < |records|
      invariant 0 <= i <= |records|
      invariant |rows| == i + 1 && rows[0] == HeaderRow(fields)
      invariant forall k :: 0 <= k < i ==> Writable(records[k], fields) && rows[k + 1] == RowOf(fields, records[k])
    {
      var rec := records[i];
      if !(forall k | k in rec :: k in fields) {
        return Err(ValueError);
      }
      if !(forall k | k in rec && rec[k].Str? && rec[k].unicode :: IsAscii(rec[k].s)) {
        return Err(UnicodeEncodeError);
      }
      rows := rows + [RowOf(fields, rec)];
      i := i + 1;
    }
    var table := CsvTable(fields, records);
    assert forall k :: 1 <= k < |rows| ==> rows[k] == table.value[k] by {
      forall k | 1 <= k < |rows| ensures rows[k] == table.value[k] {
        assert rows[(k - 1) + 1] == RowOf(fields, records[k - 1]);
      }
    }
    assert rows == table.value;
    return Ok(rows);
  }

  /** Every value of the record is text (nothing has been converted to a number yet). */
  predicate AllText(rec: Record) {
    forall k :: k in rec ==> rec[k].Str?
  }

  /** The text of a cell as the csv module writes it back; numbers only occur after
      standardisation, which does not read its own output, so they map to "". */
  function CellText(c: Cell): string {
    match c
    case Str(s, _) => s
    case Num(_) => ""
  }

  /** The cell csv.reader gives back for a written cell: its text, as a byte string. */
  function ReadBack(c: Cell): Cell {
    Str(CellText(c))
  }

  /** The fields csv.reader gives back from a row written as `row` (quoting is taken to
      round-trip). */
  function RowText(row: seq<Cell>): (r: seq<string>)
    ensures |r| == |row|
    ensures forall j :: 0 <= j < |row| && row[j].Str? ==> r[j] == row[j].s
  {
    seq(|row|, j requires 0 <= j < |row| => CellText(row[j]))
  }

  /** The rows csv.reader gives back from a file written with `rows`. */
  function TextRows(rows: seq<seq<Cell>>): (r: seq<seq<string>>)
    ensures |r| == |rows| && forall i :: 0 <= i < |rows| ==> r[i] == RowText(rows[i])
  {
    seq(|rows|, i requires 0 <= i < |rows| => RowText(rows[i]))
  }

  /** A row of texts as csv.reader hands it over: every field a text cell. */
  function TextCells(xs: seq<string>): (r: seq<Cell>)
    ensures |r| == |xs| && forall i :: 0 <= i < |xs| ==> r[i] == Str(xs[i])
  {
    seq(|xs|, i requires 0 <= i < |xs| => Str(xs[i]))
  }

  // ---------------------------------------------------------------------------------------
  // The per-ticker loop every scraping method runs

  /** What one ticker contributes: `None` when its page cannot be opened (IOError, caught, the
      ticker is skipped), `Some(Err(e))` when an exception escapes and ends the run,
      `Some(Ok(rec))` when `rec` is appended. */
  type TickerRow = string -> Option<Result<Record>>

  /** The list the loop `for ticker in self.tickers: ... list.append(record)` builds; the
      first escaping exception ends it. */
  function Collected(tickers: seq<string>, row: TickerRow): (r: Result<seq<Record>>)
    ensures r.Ok? ==> |r.value| <= |tickers|
    decreases |tickers|
  {
    if tickers == [] then Ok([])
    else
      var front := Collected(tickers[..|tickers| - 1], row);
      if front.Err? then front
      else match row(tickers[|tickers| - 1])
        case None => front
        case Some(Err(e)) => Err(e)
        case Some(Ok(rec)) => Ok(front.value + [rec])
  }

  /** The tickers whose page could be opened, in list order. */
  function Kept(tickers: seq<string>, row: TickerRow): (r: seq<string>)
    ensures |r| <= |tickers|
    ensures forall t :: t in r <==> t in tickers && row(t).Some?
    decreases |tickers|
  {
    if tickers == [] then []
    else
      var t := tickers[|tickers| - 1];
      Kept(tickers[..|tickers| - 1], row) + if row(t).Some? then [t] else []
  }

  /** The run fails exactly when some ticker's page raises an escaping exception. */
  predicate Escapes(row: TickerRow, t: string) {
    row(t).Some? && row(t).value.Err?
  }

  /** The loop succeeds exactly when no ticker's page raises, and then holds one record per
      ticker whose page could be opened, in ticker order. */
  lemma {:induction false} CollectedRows(tickers: seq<string>, row: TickerRow)
    ensures Collected(tickers, row).Ok? <==> forall i :: 0 <= i < |tickers| ==> !Escapes(row, tickers[i])
    ensures Collected(tickers, row).Ok? ==>
      var recs, kept := Collected(tickers, row).value, Kept(tickers, row);
      |recs| == |kept| && forall i :: 0 <= i < |kept| ==> row(kept[i]) == Some(Ok(recs[i]))
    ensures Collected(tickers, row).Err? ==>
      exists i :: 0 <= i < |tickers| && row(tickers[i]) == Some(Err(Collected(tickers, row).error))
    decreases |tickers|
  {
    if tickers != [] {
      var front := tickers[..|tickers| - 1];
      var t := tickers[|tickers| - 1];
      CollectedRows(front, row);
      assert forall i :: 0 <= i < |front| ==> front[i] == tickers[i];
      if Collected(tickers, row).Ok? {
        var kept := Kept(tickers, row);
        assert Kept(front, row) <= kept;
      }
    }
  }

  /** When every ticker's page can be opened, every ticker is kept, in order. */
  lemma {:induction false} KeptAll(tickers: seq<string>, row: TickerRow)
    requires forall i :: 0 <= i < |tickers| ==> row(tickers[i]).Some?
    ensures Kept(tickers, row) == tickers
    decreases |tickers|
  {
    if tickers != [] {
      var front, t := tickers[..|tickers| - 1], tickers[|tickers| - 1];
      forall i | 0 <= i < |front| ensures row(front[i]).Some? {
        assert front[i] == tickers[i];
      }
      KeptAll(front, row);
      assert tickers == front + [t];
    }
  }

  /** When no ticker is skipped, a run that succeeds holds exactly one record per ticker, in
      ticker order. */
  lemma CollectedEvery(tickers: seq<string>, row: TickerRow)
    requires forall i :: 0 <= i < |tickers| ==> row(tickers[i]).Some?
    ensures Collected(tickers, row).Ok? ==>
      var recs := Collected(tickers, row).value;
      |recs| == |tickers| && forall i :: 0 <= i < |tickers| ==> row(tickers[i]) == Some(Ok(recs[i]))
  {
    CollectedRows(tickers, row);
    KeptAll(tickers, row);
  }

  /** One more ticker: skipped, appended, or ending the whole loop with its error. */
  lemma CollectedNext(tickers: seq<string>, row: TickerRow, i: nat, list: seq<Record>)
    requires i < |tickers| && Collected(tickers[..i], row) == Ok(list)
    ensures row(tickers[i]).None? ==> Collected(tickers[..i + 1], row) == Ok(list)
    ensures row(tickers[i]).Some? && row(tickers[i]).value.Ok? ==>
      Collected(tickers[..i + 1], row) == Ok(list + [row(tickers[i]).value.value])
    ensures row(tickers[i]).Some? && row(tickers[i]).value.Err? ==>
      Collected(tickers, row) == Err(row(tickers[i]).value.error)
  {
    assert tickers[..i + 1][..i] == tickers[..i];
    if row(tickers[i]).Some? && row(tickers[i]).value.Err? {
      CollectedErrorSticks(tickers, row, i + 1);
    }
  }

  /** The ticker loop itself: each ticker's page is scraped in list order; a skipped ticker
      adds nothing, an escaping exception ends the loop, a record is appended. */
  method Collect(tickers: seq<string>, row: TickerRow) returns (res: Result<seq<Record>>)
    ensures res == Collected(tickers, row)
  {
    var list: seq<Record> := [];
    var i := 0;
    while i < |tickers|
      invariant 0 <= i <= |tickers|
      invariant Collected(tickers[..i], row) == Ok(list)
    {
      var outcome := row(tickers[i]);
      CollectedNext(tickers, row, i, list);
      match outcome {
        case None =>
        case Some(Err(e)) =>
          return Err(e);
        case Some(Ok(rec)) =>
          list := list + [rec];
      }
      i := i + 1;
    }
    assert tickers[..i] == tickers;
    return Ok(list);
  }

  /** Once a prefix of the tickers has raised, the whole loop ends with that error. */
  lemma {:induction false} CollectedErrorSticks(tickers: seq<string>, row: TickerRow, n: nat)
    requires n <= |tickers| && Collected(tickers[..n], row).Err?
    ensures Collected(tickers, row) == Collected(tickers[..n], row)
    decreases |tickers|
  {
    if n < |tickers| {
      var front := tickers[..|tickers| - 1];
      assert front[..n] == tickers[..n];
      CollectedErrorSticks(front, row, n);
    } else {
      assert tickers[..n] == tickers;
    }
  }

  // ---------------------------------------------------------------------------------------
  // The ticker list

  /** csv.reader over a `|`-delimited text: one record per line; a blank line is an empty
      record and a final newline does not start another record. Quoting is not modelled. */
  function ReadRecords(text: string): seq<seq<string>> {
    var lines := Split(text, '\n');
    var complete := if lines[|lines| - 1] == "" then lines[..|lines| - 1] else lines;
    seq(|complete|, i requires 0 <= i < |complete| =>
      if complete[i] == "" then [] else Split(complete[i], '|'))
  }

  /** `self.tickers = [record[0] for record in reader]`: an empty record raises IndexError. */
  function TickersOf(records: seq<seq<string>>): (r: Result<seq<string>>)
    ensures r.Ok? <==> forall i :: 0 <= i < |records| ==> records[i] != []
    ensures r.Err? ==> r.error == IndexError
    ensures r.Ok? ==> |r.value| == |records|
    ensures r.Ok? ==> forall i :: 0 <= i < |records| ==> r.value[i] == records[i][0]
  {
    if forall i :: 0 <= i < |records| ==> records[i] != [] then
      Ok(seq(|records|, i requires 0 <= i < |records| => records[i][0]))
    else Err(IndexError)
  }
}
