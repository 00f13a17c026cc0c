/** The Google Finance label table (src/gfnc_key_mappings.py): the asset classes of a fund's
    allocation table and the output field each one fills. */
module GfncKeyMappings {

  /** Asset class as printed on the page -> output field. */
  const AllocationsKeymap: map<string, string> := map[
    "Cash" := "pct_cash",
    "Stocks" := "pct_stock",
    "Bonds" := "pct_bonds",
    "Preferred" := "pct_preferred",
    "Convertible" := "pct_convertible",
    "Other" := "pct_other"
  ]

  predicate StartsWith(s: string, prefix: string) {
    prefix <= s
  }

  /** Exactly six asset classes are known. */
  lemma AllocationClasses()
    ensures AllocationsKeymap.Keys == {"Cash", "Stocks", "Bonds", "Preferred", "Convertible", "Other"}
    ensures |AllocationsKeymap| == 6
  {
  }

  /** No two asset classes fill the same field. */
  lemma AllocationsInjective()
    ensures forall a, b :: a in AllocationsKeymap && b in AllocationsKeymap && a != b ==>
      AllocationsKeymap[a] != AllocationsKeymap[b]
  {
  }

  /** Every field an asset class fills is a "pct_" column. */
  lemma AllocationsArePercentages()
    ensures forall a :: a in AllocationsKeymap ==> StartsWith(AllocationsKeymap[a], "pct_")
  {
  }
}
