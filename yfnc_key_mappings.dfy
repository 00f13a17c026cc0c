/** The Yahoo Finance label tables (src/yfnc_key_mappings.py): for each page type, the map
    from an output field to the page label (or label prefix) holding its value, and the
    output column order. */
module YfncKeyMappings {

  /** A keymap as written in the source: (output field, page label prefix) pairs. */
  type Keymap = seq<(string, string)>

  function Keys(km: Keymap): (ks: seq<string>)
    ensures |ks| == |km| && forall i :: 0 <= i < |km| ==> ks[i] == km[i].0
  {
    seq(|km|, i requires 0 <= i < |km| => km[i].0)
  }

  function Labels(km: Keymap): (ls: seq<string>)
    ensures |ls| == |km| && forall i :: 0 <= i < |km| ==> ls[i] == km[i].1
  {
    seq(|km|, i requires 0 <= i < |km| => km[i].1)
  }

  predicate Distinct(xs: seq<string>) {
    forall i, j :: 0 <= i < j < |xs| ==> xs[i] != xs[j]
  }

  /** No label is a prefix of another one (so "1-Year" and "10-Year" cannot capture each
      other's rows). */
  predicate PrefixFree(ls: seq<string>) {
    forall i, j :: 0 <= i < |ls| && 0 <= j < |ls| && i != j ==> !(ls[i] <= ls[j])
  }

  predicate EndsWithText(s: string, suffix: string) {
    |suffix| <= |s| && s[|s| - |suffix|..] == suffix
  }

  lemma EndsWithLast(s: string, suffix: string)
    requires suffix != []
    ensures EndsWithText(s, suffix) ==> s[|s| - 1] == suffix[|suffix| - 1]
  {
    if EndsWithText(s, suffix) {
      assert s[|s| - |suffix|..][|suffix| - 1] == s[|s| - 1];
    }
  }

  const ProfileKeymap: Keymap := [
    ("ticker", "ticker"),
    ("turnover", "AnnualHoldingsTurnover"),
    ("turnover_cat", "AverageforCategory"),
    ("prospectus_net_expense_ratio", "ProspectusNetExpenseRatio"),
    ("sales_load", "MaxFrontEndSalesLoad"),
    ("inception", "FundInceptionDate"),
    ("12b1_fees", "Max12b1Fee"),
    ("net_assets", "NetAssets"),
    ("ar_expense_ratio", "AnnualReportExpenseRatio(net)"),
    ("family", "FundFamily"),
    ("gross_expense_ratio", "ProspectusGrossExpenseRatio")
  ]

  const ProfileFields: seq<string> := [
    "ticker", "family", "sales_load", "net_assets",
    "prospectus_net_expense_ratio", "gross_expense_ratio",
    "ar_expense_ratio", "inception", "12b1_fees",
    "turnover", "turnover_cat"
  ]

  /** The statistics of the risk page, by the label of their row. */
  datatype Statistic = Alpha | Treynor | Beta | StdDev | Sharpe
  /** The period named in the header of each risk table. */
  datatype Period = Years3 | Years5 | Years10
  /** The fund's own value or the category average. */
  datatype Column = Fund | Category

  function StatisticLabel(s: Statistic): string {
    match s
    case Alpha => "Alpha (against Standard Index)"
    case Treynor => "Treynor Ratio"
    case Beta => "Beta (against Standard Index)"
    case StdDev => "Standard Deviation"
    case Sharpe => "Sharpe Ratio"
  }

  function PeriodLabel(p: Period): string {
    match p
    case Years3 => "3 Years"
    case Years5 => "5 Years"
    case Years10 => "10 Years"
  }

  function ColumnTag(c: Column): string {
    match c
    case Fund => "__SEC"
    case Category => "__CAT"
  }

  /** How the risk page names one value: the row label, the period in parentheses, and the
      column tag (the keys built in src/yfnc_fundpage_scraper.py:148-167). */
  function RiskKey(stat: string, interval: string, column: string): (k: string)
    ensures |k| == |stat| + |interval| + 2 + |column|
    ensures k[..|stat|] == stat && k[|k| - |column|..] == column
  {
    stat + "(" + interval + ")" + column
  }

  function RiskLabel(s: Statistic, p: Period, c: Column): string {
    RiskKey(StatisticLabel(s), PeriodLabel(p), ColumnTag(c))
  }

  /** The risk keymap in source order, each label given by its statistic, period and column:
      ("alpha3", Alpha, Years3, Fund) stands for "alpha3" mapped to
      "Alpha (against Standard Index)(3 Years)__SEC". */
  const RiskTable: seq<(string, Statistic, Period, Column)> := [
    ("alpha3", Alpha, Years3, Fund),
    ("alpha5", Alpha, Years5, Fund),
    ("alpha10", Alpha, Years10, Fund),
    ("alpha3_cat", Alpha, Years3, Category),
    ("alpha5_cat", Alpha, Years5, Category),
    ("alpha10_cat", Alpha, Years10, Category),
    ("treynor3", Treynor, Years3, Fund),
    ("treynor5", Treynor, Years5, Fund),
    ("treynor10", Treynor, Years10, Fund),
    ("treynor3_cat", Treynor, Years3, Category),
    ("treynor5_cat", Treynor, Years5, Category),
    ("treynor10_cat", Treynor, Years10, Category),
    ("beta3", Beta, Years3, Fund),
    ("beta5", Beta, Years5, Fund),
    ("beta10", Beta, Years10, Fund),
    ("beta3_cat", Beta, Years3, Category),
    ("beta5_cat", Beta, Years5, Category),
    ("beta10_cat", Beta, Years10, Category),
    ("sd3", StdDev, Years3, Fund),
    ("sd5", StdDev, Years5, Fund),
    ("sd10", StdDev, Years10, Fund),
    ("sd3_cat", StdDev, Years3, Category),
    ("sd5_cat", StdDev, Years5, Category),
    ("sd10_cat", StdDev, Years10, Category),
    ("sharpe3", Sharpe, Years3, Fund),
    ("sharpe5", Sharpe, Years5, Fund),
    ("sharpe10", Sharpe, Years10, Fund),
    ("sharpe3_cat", Sharpe, Years3, Category),
    ("sharpe5_cat", Sharpe, Years5, Category),
    ("sharpe10_cat", Sharpe, Years10, Category)
  ]

  const RiskKeymap: Keymap := KeymapOf(RiskTable)

  /** The keymap a risk table stands for: each output key with the label it is read from. */
  function KeymapOf(table: seq<(string, Statistic, Period, Column)>): (km: Keymap)
    ensures |km| == |table|
    ensures forall i :: 0 <= i < |table| ==>
      km[i] == (table[i].0, RiskLabel(table[i].1, table[i].2, table[i].3))
  {
    seq(|table|, i requires 0 <= i < |table| =>
      (table[i].0, RiskLabel(table[i].1, table[i].2, table[i].3)))
  }

  const RiskFields: seq<string> := [
    "ticker",
    "sharpe3", "sharpe5", "sharpe10",
    "sharpe3_cat", "sharpe5_cat", "sharpe10_cat",
    "treynor3", "treynor5", "treynor10",
    "treynor3_cat", "treynor5_cat", "treynor10_cat",
    "alpha3", "alpha5", "alpha10",
    "alpha3_cat", "alpha5_cat", "alpha10_cat",
    "beta3", "beta5", "beta10",
    "beta3_cat", "beta5_cat", "beta10_cat",
    "sd3", "sd5", "sd10",
    "sd3_cat", "sd5_cat", "sd10_cat"
  ]

  const PerformanceKeymap: Keymap := [
    ("R1", "1-Year"),
    ("R3", "3-Year"),
    ("R5", "5-Year"),
    ("R10", "10-Year")
  ]

  const PerformanceFields: seq<string> := ["ticker", "R1", "R3", "R5", "R10"]

  lemma ProfileTablesAgree()
    ensures |ProfileFields| == |ProfileKeymap| == 11
    ensures Distinct(Keys(ProfileKeymap)) && Distinct(ProfileFields)
    ensures forall x :: x in Keys(ProfileKeymap) <==> x in ProfileFields
  {
    assert Keys(ProfileKeymap) == ["ticker", "turnover", "turnover_cat",
      "prospectus_net_expense_ratio", "sales_load", "inception", "12b1_fees", "net_assets",
      "ar_expense_ratio", "family", "gross_expense_ratio"];
  }

  /** Entry i of the risk keymap is row i of the table. */
  lemma RiskKeymapRows()
    ensures |RiskKeymap| == |RiskTable| == 30
    ensures forall i :: 0 <= i < |RiskKeymap| ==> RiskKeymap[i].0 == RiskTable[i].0
    ensures forall i :: 0 <= i < |RiskKeymap| ==>
      RiskKeymap[i].1 == RiskLabel(RiskTable[i].1, RiskTable[i].2, RiskTable[i].3)
  {
  }

  /** The risk field list visits the table's blocks of six in the order Sharpe, Treynor,
      alpha, beta, standard deviation: field 1 + j is the key of table row FieldRow(j). */
  function FieldRow(j: nat): nat
    requires j < 30
  {
    6 * [4, 1, 0, 2, 3][j / 6] + j % 6
  }

  function RowField(i: nat): nat
    requires i < 30
  {
    6 * [2, 1, 3, 4, 0][i / 6] + i % 6
  }

  lemma RiskFieldsDistinct()
    ensures |RiskFields| == 31 && RiskFields[0] == "ticker" && Distinct(RiskFields)
  {
    RiskFieldsApart(0, 6);
    RiskFieldsApart(6, 12);
    RiskFieldsApart(12, 18);
    RiskFieldsApart(18, 24);
    RiskFieldsApart(24, 31);
  }

  /** The fields from position `lo` up to `hi` differ from every later field. */
  lemma RiskFieldsApart(lo: nat, hi: nat)
    requires (lo, hi) in {(0, 6), (6, 12), (12, 18), (18, 24), (24, 31)}
    ensures forall i, j :: lo <= i < hi && i < j < |RiskFields| ==> RiskFields[i] != RiskFields[j]
  {
  }

  lemma RiskFieldsFromTable()
    ensures forall j :: 0 <= j < 30 ==> FieldRow(j) < 30 && RiskFields[j + 1] == RiskTable[FieldRow(j)].0
  {
    forall j | 0 <= j < 30 ensures FieldRow(j) < 30 && RiskFields[j + 1] == RiskTable[FieldRow(j)].0 {
      var b := j / 6;
      if b == 0 {
      } else if b == 1 {
      } else if b == 2 {
      } else if b == 3 {
      } else {
      }
    }
  }

  lemma FieldRowInverse()
    ensures forall i :: 0 <= i < 30 ==> RowField(i) < 30 && FieldRow(RowField(i)) == i
  {
  }

  /** Key i of the risk keymap is field RowField(i) + 1 of the field list. */
  lemma RiskKeysAreFields()
    ensures |Keys(RiskKeymap)| == 30 && |RiskFields| == 31
    ensures forall i :: 0 <= i < 30 ==>
      RowField(i) < 30 && Keys(RiskKeymap)[i] == RiskFields[1..][RowField(i)]
  {
    RiskKeymapRows();
    RiskFieldsFromTable();
    FieldRowInverse();
  }

  lemma RiskTablesAgree()
    ensures |RiskKeymap| == 30 && |RiskFields| == 31 && RiskFields[0] == "ticker"
    ensures Distinct(Keys(RiskKeymap)) && Distinct(RiskFields)
    ensures forall x :: x in Keys(RiskKeymap) <==> x in RiskFields[1..]
  {
    RiskFieldsDistinct();
    RiskKeysAreFields();
    RiskFieldsFromTable();
    RiskKeymapRows();
    var ks, fs := Keys(RiskKeymap), RiskFields[1..];
    forall j | 0 <= j < 30 ensures FieldRow(j) < 30 && fs[j] == ks[FieldRow(j)] {
    }
    forall i, j | 0 <= i < j < 30 ensures fs[i] != fs[j] {
      assert fs[i] == RiskFields[i + 1] && fs[j] == RiskFields[j + 1];
    }
    Reordered(ks, fs);
  }

  /** Two lists of thirty names, each the other reordered by the block permutation, hold the
      same names; the first has no duplicates when the second has none. */
  lemma Reordered(ks: seq<string>, fs: seq<string>)
    requires |ks| == |fs| == 30 && Distinct(fs)
    requires forall i :: 0 <= i < 30 ==> RowField(i) < 30 && ks[i] == fs[RowField(i)]
    requires forall j :: 0 <= j < 30 ==> FieldRow(j) < 30 && fs[j] == ks[FieldRow(j)]
    ensures Distinct(ks)
    ensures forall x :: x in ks <==> x in fs
  {
    forall x | x in fs ensures x in ks {
      var j :| 0 <= j < 30 && fs[j] == x;
      assert ks[FieldRow(j)] == x;
    }
    forall x | x in ks ensures x in fs {
      var i :| 0 <= i < 30 && ks[i] == x;
      assert fs[RowField(i)] == x;
    }
    forall i, j | 0 <= i < j < 30 ensures ks[i] != ks[j] {
      FieldRowInverse();
      assert FieldRow(RowField(i)) == i && FieldRow(RowField(j)) == j;
    }
  }


  lemma PerformanceTablesAgree()
    ensures |PerformanceFields| == |PerformanceKeymap| + 1 == 5
    ensures Distinct(PerformanceFields) && Distinct(Keys(PerformanceKeymap)) && "ticker" !in Keys(PerformanceKeymap)
    ensures forall x :: x in PerformanceFields <==> x == "ticker" || x in Keys(PerformanceKeymap)
  {
    assert Keys(PerformanceKeymap) == ["R1", "R3", "R5", "R10"];
  }

  /** A risk field ending in "_cat" reads a category-average value and any other one the
      fund's own value. */
  lemma RiskColumnsTagged()
    ensures forall i :: 0 <= i < |RiskKeymap| ==>
      (EndsWithText(RiskKeymap[i].0, "_cat") <==> EndsWithText(RiskKeymap[i].1, "__CAT"))
    ensures forall i :: 0 <= i < |RiskKeymap| ==>
      (!EndsWithText(RiskKeymap[i].0, "_cat") <==> EndsWithText(RiskKeymap[i].1, "__SEC"))
  {
    RiskTableKeysTagged();
    forall i | 0 <= i < |RiskKeymap|
      ensures EndsWithText(RiskKeymap[i].1, "__CAT") <==> RiskTable[i].3 == Category
      ensures EndsWithText(RiskKeymap[i].1, "__SEC") <==> RiskTable[i].3 == Fund
    {
      RiskLabelTag(RiskTable[i].1, RiskTable[i].2, RiskTable[i].3);
    }
  }

  lemma RiskTableKeysTagged()
    ensures forall i :: 0 <= i < |RiskTable| ==>
      (EndsWithText(RiskTable[i].0, "_cat") <==> RiskTable[i].3 == Category)
  {
  }

  lemma RiskLabelTag(s: Statistic, p: Period, c: Column)
    ensures EndsWithText(RiskLabel(s, p, c), "__CAT") <==> c == Category
    ensures EndsWithText(RiskLabel(s, p, c), "__SEC") <==> c == Fund
  {
  }

  lemma NotPrefixAt(a: string, b: string, k: nat)
    requires k < |a| && k < |b| && a[k] != b[k]
    ensures !(a <= b) && !(b <= a)
  {
  }

  const ProfileLabels: seq<string> := [
    "ticker", "AnnualHoldingsTurnover", "AverageforCategory", "ProspectusNetExpenseRatio",
    "MaxFrontEndSalesLoad", "FundInceptionDate", "Max12b1Fee", "NetAssets",
    "AnnualReportExpenseRatio(net)", "FundFamily", "ProspectusGrossExpenseRatio"]

  lemma ProfileLabelsPrefixFree()
    ensures Distinct(Labels(ProfileKeymap)) && PrefixFree(Labels(ProfileKeymap))
  {
    assert Labels(ProfileKeymap) == ProfileLabels;
    ProfileLabelsApartLow();
    ProfileLabelsApartHigh();
  }

  lemma ProfileLabelsApartLow()
    ensures forall i, j :: 0 <= i < 4 && i < j < |ProfileLabels| ==>
      !(ProfileLabels[i] <= ProfileLabels[j]) && !(ProfileLabels[j] <= ProfileLabels[i])
  {
    var L := ProfileLabels;
    forall i, j | 0 <= i < 4 && i < j < |L| ensures !(L[i] <= L[j]) && !(L[j] <= L[i]) {
      if L[i][0] != L[j][0] { NotPrefixAt(L[i], L[j], 0); }
      else if i == 1 && j == 2 { NotPrefixAt(L[i], L[j], 1); }
      else if i == 1 && j == 8 { NotPrefixAt(L[i], L[j], 6); }
      else if i == 2 && j == 8 { NotPrefixAt(L[i], L[j], 1); }
      else if i == 3 && j == 10 { NotPrefixAt(L[i], L[j], 10); }
    }
  }

  lemma ProfileLabelsApartHigh()
    ensures forall i, j :: 4 <= i < j < |ProfileLabels| ==>
      !(ProfileLabels[i] <= ProfileLabels[j]) && !(ProfileLabels[j] <= ProfileLabels[i])
  {
    var L := ProfileLabels;
    forall i, j | 4 <= i < j < |L| ensures !(L[i] <= L[j]) && !(L[j] <= L[i]) {
      if L[i][0] != L[j][0] { NotPrefixAt(L[i], L[j], 0); }
      else if i == 4 && j == 6 { NotPrefixAt(L[i], L[j], 3); }
      else if i == 5 && j == 9 { NotPrefixAt(L[i], L[j], 4); }
    }
  }

  lemma PerformanceLabelsPrefixFree()
    ensures Distinct(Labels(PerformanceKeymap)) && PrefixFree(Labels(PerformanceKeymap))
  {
    var L := Labels(PerformanceKeymap);
    assert L == ["1-Year", "3-Year", "5-Year", "10-Year"];
    NotPrefixAt(L[0], L[3], 1);
  }

  /** A risk key can be taken apart again: the column tag is its last characters and the
      period is what lies between the last "(" and the ")" before the tag. */
  lemma RiskKeyInjective(s1: string, t1: string, c1: string, s2: string, t2: string, c2: string)
    requires '(' !in t1 && '(' !in t2 && |c1| == |c2|
    requires RiskKey(s1, t1, c1) == RiskKey(s2, t2, c2)
    ensures s1 == s2 && t1 == t2 && c1 == c2
  {
    var k := RiskKey(s1, t1, c1);
    var n := |k| - |c1| - 1;
    var u1, u2 := s1 + "(" + t1, s2 + "(" + t2;
    assert u1 == k[..n] == u2;
    ParenPosition(s2, t2, |s1|);
    ParenPosition(s1, t1, |s2|);
    assert t1 == u1[n - |t1|..] == t2;
    assert s1 == u1[..|s1|] == s2;
  }

  /** In s + "(" + t with no "(" in t, every "(" lies at or before position |s|. */
  lemma ParenPosition(s: string, t: string, q: nat)
    requires '(' !in t && q < |s| + 1 + |t| && (s + "(" + t)[q] == '('
    ensures q <= |s|
  {
  }

  /** Every risk label carries its first '_' five characters from its end. */
  lemma RiskLabelMarked(s: Statistic, p: Period, c: Column)
    ensures MarkedEnd(RiskLabel(s, p, c), '_', 5)
  {
    var stem := StatisticLabel(s) + "(" + PeriodLabel(p) + ")";
    var l := RiskLabel(s, p, c);
    assert l == stem + ColumnTag(c);
    assert l[..|l| - 5] == stem;
    NoUnderscoreInLabels(s, p);
  }

  lemma NoUnderscoreInLabels(s: Statistic, p: Period)
    ensures '_' !in StatisticLabel(s) && '_' !in PeriodLabel(p)
  {
    match s
    case Alpha =>
    case Treynor =>
    case Beta =>
    case StdDev =>
    case Sharpe =>
  }

  /** No two rows of the risk table name the same statistic, period and column. */
  lemma RiskTableRowsDistinct()
    ensures forall i, j :: 0 <= i < j < |RiskTable| ==>
      (RiskTable[i].1, RiskTable[i].2, RiskTable[i].3) != (RiskTable[j].1, RiskTable[j].2, RiskTable[j].3)
  {
  }

  lemma RiskLabelsDistinct()
    ensures Distinct(Labels(RiskKeymap))
  {
    var L := Labels(RiskKeymap);
    RiskKeymapRows();
    RiskTableRowsDistinct();
    forall i, j | 0 <= i < j < |L| ensures L[i] != L[j] {
      var (_, s1, p1, c1) := RiskTable[i];
      var (_, s2, p2, c2) := RiskTable[j];
      if L[i] == L[j] {
        RiskLabelParts(s1, p1, c1, s2, p2, c2);
      }
    }
  }

  /** Different statistics, periods or columns give different labels. */
  lemma RiskLabelParts(s1: Statistic, p1: Period, c1: Column, s2: Statistic, p2: Period, c2: Column)
    requires RiskLabel(s1, p1, c1) == RiskLabel(s2, p2, c2)
    ensures s1 == s2 && p1 == p2 && c1 == c2
  {
    NoParenInPeriod(p1);
    NoParenInPeriod(p2);
    RiskKeyInjective(StatisticLabel(s1), PeriodLabel(p1), ColumnTag(c1),
                     StatisticLabel(s2), PeriodLabel(p2), ColumnTag(c2));
  }

  lemma NoParenInPeriod(p: Period)
    ensures '(' !in PeriodLabel(p)
  {
  }

  lemma RiskLabelsPrefixFree()
    ensures Distinct(Labels(RiskKeymap)) && PrefixFree(Labels(RiskKeymap))
  {
    var L := Labels(RiskKeymap);
    RiskKeymapRows();
    RiskLabelsDistinct();
    forall i | 0 <= i < |L| ensures MarkedEnd(L[i], '_', 5) {
      RiskLabelMarked(RiskTable[i].1, RiskTable[i].2, RiskTable[i].3);
    }
    MarkedPrefixFree(L, '_', 5);
  }

  /** The label's first c sits d characters before its end. */
  predicate MarkedEnd(l: string, c: char, d: nat) {
    0 < d <= |l| && l[|l| - d] == c && c !in l[..|l| - d]
  }

  /** Distinct labels marked at the same distance from their end are not prefixes of one
      another: the mark of the shorter one would be the first mark of the longer one. */
  lemma MarkedPrefixFree(ls: seq<string>, c: char, d: nat)
    requires Distinct(ls)
    requires forall i :: 0 <= i < |ls| ==> MarkedEnd(ls[i], c, d)
    ensures PrefixFree(ls)
  {
  }
}
