# Mutual-fund page scrapers, modelled in Dafny

This project models the extraction and normalisation core of the investment_analysis
mutual-fund scrapers. The Yahoo Finance, Google Finance and MarketWatch scrapers read saved
HTML pages. They pull label and value cells out of the pages, remap the labels onto output
field names, clean the values, and write pipe-delimited files.

The model starts after HTML parsing. A page is the sequence of cell texts (or rows of cell
texts) that the scraper's BeautifulSoup queries return. Where a query finds nothing and the
code catches the exception, the view is `None` or an empty list.

Modules, one per source file or concern:

| file | models |
|---|---|
| `wrappers.dfy` | `Option`, `Result` and the Python exceptions that steer control flow |
| `py_strings.dfy` | `str.replace`, `strip` on str and on unicode, `split`, `encode('ascii', errors='ignore')` and character-class deletion |
| `decimal.dfy` | `float(s)` on decimal text, with exact rational results, and `float(u)` behind its decimal codec |
| `patterns.dfy` | the three regular expressions as hand-written leftmost matchers, each proved equal to a declarative description of its pattern |
| `abstract_scraper.dfy` | `insert_suffix`, `writecsv`, the ticker-list reader and the generic per-ticker loop |
| `yfnc_key_mappings.dfy`, `gfnc_key_mappings.dfy` | the constant label tables and their consistency |
| `label_remap.dfy` | Python dicts with their iteration order, `dict(zip(...))`, `update`, and the prefix remap loops |
| `yfnc_pages.dfy` | one Yahoo profile, risk or performance page turned into a raw dict and then a record |
| `yfnc_standardise.dfy` | `standardize_profiles` and `standardize_risk`, rewriting the numeric columns of each row in place |
| `yfnc_fundpage_scraper.dfy` | the three Yahoo runs: ticker loop, intermediate file, standardised file |
| `gfnc_fundpage_scraper.dfy` | the Google duration-regex performance scraper |
| `gfnc_scraper.py` → `gfnc_scraper.dfy` | the Google profile, risk and alternate-performance runs, and `scrape` |
| `ticker_generator.dfy` | `extract_marketwatch_tickers` |
| `create_mutf_data.dfy` | the function versions `get_profile`, `get_risk` and `get_performance`, plus `generate_marketwatch_tickers` and `generate_data_file` |

## How the code is modelled

**Loops that change state are methods.** Each such loop is a method with a `while` loop proved
equal to a recursive specification function. The properties are then proved as lemmas about
that function. Examples:
- the nested remap loops (`LabelRemap.Remap`, `LabelRemap.MatchFields`);
- the ticker loops (`AbstractScraper.Collect`, and the `Collect*` methods of each scraper);
- the raw-dict builders (`YfncPages.BuildProfileRaw`, `YfncPages.BuildRiskRaw`);
- the in-place column rewrite (`YfncStandardise.ConvertColumns`, on an `array<Cell>`).

**The ticker loop is modelled once.** `AbstractScraper.Collected` and `AbstractScraper.Collect`
describe the loop over `self.tickers`. Each scraper supplies what one ticker contributes:
- a record;
- the escaping exception that ends the run;
- nothing, when a Yahoo page that cannot be opened is skipped.

**A missing page is an absent map entry.** Files written are returned as a map from path to
rows.

**Python dicts keep their iteration order.** A dict is an insertion-ordered `RawMap`: a key
keeps its place when it is overwritten, and a new key goes last. Python 2 iterates dicts in
hash order. `LabelRemap.RemapOrderFree` shows that this order does not matter for the remap
when no mapped prefix matches two raw labels of the page. That condition is about the page, not
only the key tables: the tables' prefixes are prefix-free, which gives each field at most one
prefix (`OneEntryPerField`), but one prefix can still match two labels of a page, such as
`Category` and a longer label starting with it.

**Where the code differs from its comments or from a natural reading, the model follows the
code:**
- `replace("%", "")` removes every `%`, not only a trailing one.
- Google `total_assets` keeps thousands separators before an `M` or `B`, so `"1,234M"` raises
  ValueError (`src/gfnc_scraper.py:102-105`). The Yahoo net-assets filter removes them first.
- A Yahoo page that cannot be opened drops the ticker's row (the IOError is caught). A Google
  page that cannot be opened ends the run (`open` is outside the `try`).
- The risk assertion in the Yahoo scrapers is not caught. `get_performance` in
  `create_mutf_data.py` has no guard around `perf_tables[1]`.
- BeautifulSoup gives unicode texts. Their `strip()` removes Unicode whitespace such as the
  no-break space. `float` on them refuses NUL and characters beyond Latin-1 with
  UnicodeEncodeError, and reads a Latin-1 letter as a byte it then refuses with ValueError.
  A Python 2 text file or csv writer encodes unicode as ASCII, so a non-ASCII unicode text
  raises UnicodeEncodeError when it is written (`AbstractScraper.WriteError`,
  `TickerGenerator.FirstUnencodable`). Byte strings are written as they are: the ticker read
  from the ticker list, a field read back from a file, and text the code encoded to ASCII.
  `AbstractScraper.Cell` records which kind each text is. A page label starting with
  `ticker` replaces the listed ticker with page text, which is then encoded like any other
  page value (`YfncPages.PageTickerRefused`).
- An unknown Google asset class raises KeyError. It is caught, and all the allocation fields
  are dropped.

## Model

| member | source | states |
|---|---|---|
| PyStrings.DeleteChars | src/yfnc_fundpage_scraper.py:74-88 | deleting characters never lengthens the text |
| PyStrings.DeleteCharsMembers | src/yfnc_fundpage_scraper.py:74-88 | after `translate` deletions, a character is present iff it was in the text and is not deleted |
| PyStrings.KeepChars | src/yfnc_fundpage_scraper.py:269-275 | `re.sub("[^...]", "", s)` never lengthens the text |
| PyStrings.KeepCharsMembers | src/yfnc_fundpage_scraper.py:269-275 | a character survives iff it was in the text and is in the kept class |
| PyStrings.KeepCharsIdempotent | src/yfnc_fundpage_scraper.py:321-327 | filtering by a character class twice equals filtering once |
| PyStrings.KeptIsStripped | src/yfnc_fundpage_scraper.py:291 | a text filtered to non-space characters is unchanged by `strip()` |
| PyStrings.DropNonAscii | src/gfnc_scraper.py:300 | `encode('ascii', errors='ignore')` never lengthens the text |
| PyStrings.DropNonAsciiMembers | src/gfnc_scraper.py:300 | exactly the ASCII characters of the text survive |
| PyStrings.ReplaceCharDeletes | src/yfnc_fundpage_scraper.py:100 | `replace("%", "")` deletes every `%`, not only a trailing one |
| PyStrings.ReplaceKeepsOtherChars | src/yfnc_fundpage_scraper.py:176 | removing `"N/A"` neither removes nor adds any character outside `"N/A"` |
| PyStrings.ReplaceAbsent | src/yfnc_fundpage_scraper.py:100 | text lacking some character of the pattern is left unchanged |
| PyStrings.ReplaceCharGone | src/gfnc_scraper.py:114 | after replacing a character by text without it, none is left |
| PyStrings.Strip | src/gfnc_scraper.py:300 | `str.strip()` on the ASCII-encoded row text gives a text no longer than the input with no whitespace at either end, and leaves an already-stripped text alone |
| PyStrings.StripSpec | src/gfnc_scraper.py:300 | `str.strip()` keeps exactly the slice between the leading and the trailing whitespace, and drops only whitespace |
| PyStrings.UnicodeStripSpec | src/gfnc_scraper.py:94 | `u.strip()` on a cell text drops exactly its leading and trailing Unicode whitespace; what it keeps neither starts nor ends with Unicode whitespace |
| PyStrings.UnicodeStripAgrees | src/gfnc_scraper.py:190 | on text where Unicode and ASCII whitespace agree, `u.strip()` equals `str.strip()` |
| PyStrings.NoBreakSpaceStripped | src/gfnc_scraper.py:190 | a no-break space before a dash is removed by `u.strip()` and kept by `str.strip()` |
| PyStrings.Split | src/abstract_scraper.py:31 | `split(c)` gives at least one piece, and no piece holds `c` |
| PyStrings.SplitPair | src/abstract_scraper.py:31 | `a + "." + b` with no `.` in either part splits into exactly `[a, b]` |
| PyStrings.SplitCount | src/abstract_scraper.py:31 | `split(c)` has one more piece than there are occurrences of `c` |
| PyStrings.CountSplit | src/abstract_scraper.py:31 | the occurrences of a character in a text add up over any two halves |
| PyStrings.IndexOf | src/abstract_scraper.py:31 | the first occurrence of a character, or the length when there is none |
| Decimal.Float | src/gfnc_scraper.py:103-109 | `float(s)` is Ok iff the text is a decimal numeral, and raises ValueError otherwise |
| Decimal.UnicodeFloatValue | src/gfnc_scraper.py:103-109 | `float(u)` is Ok iff the text holds no character the decimal codec refuses and, with its Unicode whitespace blanked and stripped, is a decimal numeral; the value is that numeral's |
| Decimal.UnicodeFloatRefused | src/gfnc_scraper.py:196 | `float(u)` raises UnicodeEncodeError exactly on a text holding NUL or a character beyond Latin-1 that is not Unicode whitespace |
| Decimal.EncodeDecimalSpec | src/gfnc_scraper.py:196 | the decimal codec fails iff NUL or a character beyond Latin-1 other than Unicode whitespace is present; otherwise it turns each Unicode whitespace character into a space and keeps every other character as its Latin-1 byte |
| Decimal.UnicodeFloatOfAscii | src/gfnc_scraper.py:196 | on ASCII text without whitespace or NUL, `float(u)` reads exactly what `float` reads from the same str |
| Decimal.UnicodeFloatLatin1 | src/gfnc_scraper.py:196 | `float(u"25\xe9")` is not refused by the codec and raises ValueError |
| Decimal.UnicodeFloatNoBreakSpace | src/gfnc_scraper.py:196 | `float(u"25\u00a0")` is 25.0, while `float` on the str `"25\xa0"` raises ValueError |
| Decimal.UnicodeFloatRoundTrip | src/gfnc_scraper.py:103 | `float(u)` reads the numeral of `n` back as `n` |
| Decimal.UnicodeFloatNumeral | src/gfnc_scraper.py:104-109 | `float(u)` reads a non-empty string of digits as the number it writes |
| Decimal.RefusedDeleting | src/gfnc_scraper.py:103-109 | deleting ASCII units or separators other than NUL neither adds nor removes a refused character |
| Decimal.DecimalTextHasDigit | src/yfnc_fundpage_scraper.py:291 | every text `float` accepts holds a digit |
| Decimal.NatToString | src/gfnc_scraper.py:103 | the decimal numeral of a natural number is a non-empty run of digits |
| Decimal.DigitsRoundTrip | src/gfnc_scraper.py:103 | reading back the numeral of `n` gives `n` |
| Decimal.ParseFloatRoundTrip | src/gfnc_scraper.py:196 | `float(str(n)) == n` and `float("-" + str(n)) == -n` |
| Decimal.ParseNumeral | src/yfnc_fundpage_scraper.py:277 | a run of digits reads as the number it spells |
| Decimal.ParseNegatedNumeral | src/yfnc_fundpage_scraper.py:327 | a minus sign and a run of digits read as the negated number |
| Patterns.RunEnd | src/gfnc_fundpage_scraper.py:49 | a greedy `[cs]*` run: every character inside is in `cs`, and the next one is not |
| Patterns.RunEndUnique | src/gfnc_fundpage_scraper.py:49 | the greedy run is the only run that stops at a character outside the class |
| Patterns.RunEndCovers | src/ticker_generator.py:55 | the greedy run reaches at least as far as any run of the same characters |
| Patterns.NumberAt | src/gfnc_fundpage_scraper.py:49 | `[\+\-]{1}[\d]+\.[\d]+%` read from a position ends at a `%` |
| Patterns.NumberAtSound | src/gfnc_fundpage_scraper.py:49 | what the number reader accepts is a return text: sign, digits, point, digits |
| Patterns.NumberAtComplete | src/gfnc_fundpage_scraper.py:49 | every return text followed by `%` is read up to that `%` |
| Patterns.StarEnd | src/gfnc_fundpage_scraper.py:49 | `[\*]{0,1}` skips at most one `*` |
| Patterns.ReturnAtSound | src/gfnc_fundpage_scraper.py:49-52 | the duration matcher accepts only what `<duration>[*]? +([+-]\d+\.\d+)%` describes |
| Patterns.ReturnAtComplete | src/gfnc_fundpage_scraper.py:49-52 | everything the duration pattern describes is found by the matcher, with the same group |
| Patterns.ReturnAtMatches | src/gfnc_fundpage_scraper.py:49-52 | the matcher at a position gives group `v` iff the pattern matches there with group `v` |
| Patterns.FirstFromSpec | src/gfnc_fundpage_scraper.py:65 | the scan gives the first position with a match, or nothing iff no position has one |
| Patterns.ReturnSearchSpec | src/gfnc_fundpage_scraper.py:65-67 | `re.search` of a duration pattern gives the group of its leftmost match, and None iff it matches nowhere |
| Patterns.ReturnSearchIsReturn | src/gfnc_fundpage_scraper.py:49 | a captured return is sign, digits, `.`, digits, without the `*` or the `%` |
| Patterns.ReturnIsDecimal | src/gfnc_fundpage_scraper.py:49 | a captured return is a decimal that `float` accepts |
| Patterns.SignedEnd | src/gfnc_scraper.py:279 | the greedy `\d*\.*\d*` after a sign ends past the sign |
| Patterns.SignedEndSound | src/gfnc_scraper.py:279 | the greedy group is a signed text that cannot be extended |
| Patterns.MaximalUnique | src/gfnc_scraper.py:279 | at most one maximal signed text starts at a position |
| Patterns.SignedAtSound | src/gfnc_scraper.py:279 | the row matcher accepts only what `[ ]+([\+\-]\d*\.*\d*)%*` describes |
| Patterns.SignedAtComplete | src/gfnc_scraper.py:279 | everything the row pattern describes is found, with the same group |
| Patterns.SignedAtMatches | src/gfnc_scraper.py:279 | the row matcher gives `v` at a position iff the pattern matches there with group `v` |
| Patterns.SignedSearchSpec | src/gfnc_scraper.py:302 | `re.search` of the row pattern gives the group of its leftmost match, and None iff it matches nowhere |
| Patterns.SignedSearchIsSigned | src/gfnc_scraper.py:302 | the group found is a sign followed by digits and points |
| Patterns.TickerAtMatches | src/ticker_generator.py:55 | the ticker matcher gives `t` iff `/` followed by `t` matches `/[A-Z]{2,5}` greedily there |
| Patterns.FirstTicker | src/ticker_generator.py:61 | `findall(...)[0][1:]` fails only with IndexError |
| Patterns.FirstTickerSpec | src/ticker_generator.py:55-61 | the ticker is the 2 to 5 capitals after the leftmost matching slash; IndexError iff the pattern matches nowhere |
| AbstractScraper.LastSlashEnd | src/abstract_scraper.py:30-31 | one past the last `/`: everything after it is slash-free |
| AbstractScraper.StripTrailingSlashes | src/abstract_scraper.py:30 | the result is a prefix that does not end in `/`, and only slashes were removed |
| AbstractScraper.Basename | src/abstract_scraper.py:31 | `os.path.basename` holds no `/` |
| AbstractScraper.DirnameShape | src/abstract_scraper.py:30 | `os.path.dirname` is empty, all slashes, or does not end in `/` |
| AbstractScraper.JoinSplits | src/abstract_scraper.py:30-37 | `dirname` and `basename` take `os.path.join(d, b)` apart again |
| AbstractScraper.InsertSuffixSucceeds | src/abstract_scraper.py:31 | `insert_suffix` succeeds iff the base name holds exactly one `.`; otherwise the unpacking raises ValueError |
| AbstractScraper.InsertSuffixKeepsDirectory | src/abstract_scraper.py:29-38 | the directory is unchanged; the new base name is the stem, the suffix, then `.` and the extension, with the `.` only for a non-empty extension |
| AbstractScraper.SplitTwo | src/abstract_scraper.py:31 | a split into two pieces is a split at the first occurrence |
| AbstractScraper.InsertSuffixMoves | src/abstract_scraper.py:29-38 | a suffix not starting with `.` always gives a path different from the input |
| AbstractScraper.InsertSuffixesDiffer | src/abstract_scraper.py:29-38 | two suffixes that differ somewhere give two different paths |
| AbstractScraper.CsvTable | src/abstract_scraper.py:19-25 | Ok iff every record fits the header and every unicode text in it is ASCII (byte strings are written as they are); otherwise the first refused record raises ValueError (a key outside the header) or UnicodeEncodeError; the header row comes first, then one row per record in list order |
| AbstractScraper.WriteError | src/abstract_scraper.py:25 | `writerow` raises ValueError iff a key is outside the header, and UnicodeEncodeError iff the keys fit but a unicode text is not ASCII |
| AbstractScraper.FirstUnwritable | src/abstract_scraper.py:24-25 | every record before it can be written, and the record at it, if any, cannot |
| AbstractScraper.WriteCsv | src/abstract_scraper.py:10-25 | the writing loop produces exactly `CsvTable` |
| AbstractScraper.Collected | src/yfnc_fundpage_scraper.py:67-108 | a completed ticker loop holds at most one record per ticker |
| AbstractScraper.Kept | src/yfnc_fundpage_scraper.py:68-108 | the kept tickers are exactly those whose page could be opened |
| AbstractScraper.CollectedRows | src/yfnc_fundpage_scraper.py:67-108 | the loop succeeds iff no page raises; it then holds one record per kept ticker, in ticker order; a failure is some ticker's exception |
| AbstractScraper.KeptAll | src/gfnc_scraper.py:68 | when every page can be opened, every ticker is kept, in order |
| AbstractScraper.CollectedEvery | src/gfnc_scraper.py:66-143 | when no ticker is skipped, a completed loop holds exactly one record per ticker, in ticker order |
| AbstractScraper.CollectedNext | src/yfnc_fundpage_scraper.py:68-108 | one more ticker: skipped, appended at the end, or ending the loop with its exception |
| AbstractScraper.Collect | src/yfnc_fundpage_scraper.py:67-108 | the ticker loop with `list.append` computes `Collected` |
| AbstractScraper.CollectedErrorSticks | src/yfnc_fundpage_scraper.py:68-108 | once a prefix of the tickers has raised, the whole loop ends with that exception |
| YfncKeyMappings.RiskKey | src/yfnc_fundpage_scraper.py:154 | `label + "(" + interval + ")" + tag` starts with the label and ends with the tag |
| YfncKeyMappings.ProfileTablesAgree | src/yfnc_key_mappings.py:12-31 | the profile keymap keys and `profile_fields` are the same 11 distinct names |
| YfncKeyMappings.RiskKeymapRows | src/yfnc_key_mappings.py:33-64 | the risk keymap has 30 entries, each its table row |
| YfncKeyMappings.RiskFieldsDistinct | src/yfnc_key_mappings.py:66-78 | `risk_fields` has 31 distinct names, `"ticker"` first |
| YfncKeyMappings.RiskFieldsFromTable | src/yfnc_key_mappings.py:66-78 | field `j + 1` is the key of one row of the risk keymap |
| YfncKeyMappings.RiskKeysAreFields | src/yfnc_key_mappings.py:33-78 | every risk keymap key is a field after `"ticker"` |
| YfncKeyMappings.RiskTablesAgree | src/yfnc_key_mappings.py:33-78 | `risk_fields` is `"ticker"` followed by exactly the 30 keys of `risk_keymap`, with no duplicates |
| YfncKeyMappings.PerformanceTablesAgree | src/yfnc_key_mappings.py:80-87 | `{"ticker"}` plus the performance keys is exactly `performance_fields`, all distinct |
| YfncKeyMappings.RiskColumnsTagged | src/yfnc_key_mappings.py:33-64 | a key ending `_cat` maps to a label ending `__CAT`; every other key maps to one ending `__SEC` |
| YfncKeyMappings.RiskLabelTag | src/yfnc_key_mappings.py:33-64 | a risk label ends `__CAT` iff it reads a category value, and `__SEC` iff it reads the fund's |
| YfncKeyMappings.RiskTableKeysTagged | src/yfnc_key_mappings.py:33-64 | an output key ends in `_cat` iff its entry reads the category column |
| YfncKeyMappings.RiskLabelsDistinct | src/yfnc_key_mappings.py:33-64 | no two risk keymap entries share a label |
| YfncKeyMappings.ProfileLabelsPrefixFree | src/yfnc_key_mappings.py:12-24 | the profile labels are distinct and none is a prefix of another |
| YfncKeyMappings.PerformanceLabelsPrefixFree | src/yfnc_key_mappings.py:80-85 | `"1-Year"`, `"3-Year"`, `"5-Year"` and `"10-Year"` are distinct, and none is a prefix of another |
| YfncKeyMappings.RiskLabelsPrefixFree | src/yfnc_key_mappings.py:33-64 | the risk labels are distinct and none is a prefix of another |
| YfncKeyMappings.RiskKeyInjective | src/yfnc_fundpage_scraper.py:152-164 | a synthesised risk key determines its label, interval and column tag |
| YfncKeyMappings.RiskLabelParts | src/yfnc_key_mappings.py:33-64 | different statistics, periods or columns give different labels |
| YfncKeyMappings.RiskTableRowsDistinct | src/yfnc_key_mappings.py:33-64 | no two risk keymap entries read the same statistic, period and column |
| YfncKeyMappings.MarkedPrefixFree | src/yfnc_key_mappings.py:33-64 | distinct labels whose first `_` sits at the same distance from the end are prefix-free |
| GfncKeyMappings.AllocationClasses | src/gfnc_key_mappings.py:6-13 | exactly six asset classes: Cash, Stocks, Bonds, Preferred, Convertible and Other |
| GfncKeyMappings.AllocationsInjective | src/gfnc_key_mappings.py:7-12 | no two asset classes fill the same field |
| GfncKeyMappings.AllocationsArePercentages | src/gfnc_key_mappings.py:7-12 | every target field starts with `pct_` |
| LabelRemap.OnceEachDistinct | src/yfnc_fundpage_scraper.py:76-92 | a dict's iteration order lists each key once |
| LabelRemap.Set | src/yfnc_fundpage_scraper.py:101 | `d[k] = v` updates the value; an existing key keeps its place and a new key goes last |
| LabelRemap.Update | src/yfnc_fundpage_scraper.py:92 | `d.update(e)` gives `d`'s entries overridden by `e`'s, with `d`'s keys keeping their order |
| LabelRemap.UpdateKeys | src/yfnc_fundpage_scraper.py:166-167 | writing a list of keys: keys are those of `d` plus the list; values come from the list where listed |
| LabelRemap.FromZip | src/yfnc_fundpage_scraper.py:92 | `dict(zip(ks, vs))` has exactly the keys of `ks` up to the shorter length |
| LabelRemap.FromZipLastWins | src/yfnc_fundpage_scraper.py:92 | a key repeated in `ks` keeps the value paired with its last occurrence |
| LabelRemap.NormalisedHasNoPercent | src/yfnc_fundpage_scraper.py:100 | profile and performance values carry no `%` after clean-up |
| LabelRemap.RiskKeepsPercent | src/yfnc_fundpage_scraper.py:176 | risk clean-up keeps every `%` the page printed |
| LabelRemap.LastMatch | src/yfnc_fundpage_scraper.py:98-99 | the last field in iteration order that starts with the prefix; no later field does |
| LabelRemap.MatchesIsLastMatch | src/yfnc_fundpage_scraper.py:98-101 | with no `break`, the inner loop amounts to the last matching field alone |
| LabelRemap.Remap | src/yfnc_fundpage_scraper.py:96-101 | the nested `for key` / `for field` loops with `update` compute `Remapped` |
| LabelRemap.MatchFields | src/yfnc_fundpage_scraper.py:98-101 | the inner loop over the raw fields computes `Matches` over the whole iteration order |
| LabelRemap.RemappedEntry | src/yfnc_fundpage_scraper.py:172-177 | key K is present iff it was seeded or some raw field starts with its label; its value is then the normalised value of the last such field |
| LabelRemap.RemappedFrame | src/yfnc_fundpage_scraper.py:96-101 | a key outside the keymap keeps its seed value, or stays absent |
| LabelRemap.RemappedKeys | src/yfnc_fundpage_scraper.py:96-101 | every seed key survives, and the only keys added are keymap keys |
| LabelRemap.RemapOrderFree | src/yfnc_fundpage_scraper.py:97-98 | when no prefix matches two raw fields, the record does not depend on the dict's iteration order |
| LabelRemap.OneEntryPerField | src/yfnc_fundpage_scraper.py:97-99 | with prefix-free labels, a raw field feeds at most one keymap entry |
| LabelRemap.RemappedValue | src/yfnc_fundpage_scraper.py:223-231 | every remapped value is the seed's own or the normalised value of some raw field |
| LabelRemap.MatchesValue | src/yfnc_fundpage_scraper.py:98-101 | every value the inner loop writes is the record's own or some raw field's normalised value |
| LabelRemap.RemappedEmpty | src/yfnc_fundpage_scraper.py:217-223 | a remap over an empty raw dict returns the seed unchanged |
| YfncPages.SanitiseLabel | src/yfnc_fundpage_scraper.py:86-89 | Ok iff the label is ASCII, else UnicodeEncodeError; the key then has no `:`, newline or space |
| YfncPages.SanitiseLabelChars | src/yfnc_fundpage_scraper.py:86-89 | the key holds exactly the label's characters other than `:`, newline and space |
| YfncPages.SanitiseLabelIdempotent | src/yfnc_fundpage_scraper.py:86-89 | sanitising a sanitised label changes nothing |
| YfncPages.SanitisedLabels | src/yfnc_fundpage_scraper.py:86-89 | the comprehension is Ok iff every label is ASCII; it keeps one key per label, in order |
| YfncPages.TableRaw | src/yfnc_fundpage_scraper.py:84-92 | one title table's dict is built iff its labels are ASCII |
| YfncPages.TableRawKeysClean | src/yfnc_fundpage_scraper.py:86-92 | every key of a table's dict is a sanitised label |
| YfncPages.ProfileRaw | src/yfnc_fundpage_scraper.py:76-92 | a successful merge of the title tables is a well-formed dict |
| YfncPages.BuildProfileRaw | src/yfnc_fundpage_scraper.py:83-92 | the loop over the title tables computes `ProfileRaw` |
| YfncPages.ProfileRawOk | src/yfnc_fundpage_scraper.py:83-92 | a profile page is read iff all its labels are ASCII, otherwise UnicodeEncodeError |
| YfncPages.ProfileRawKeysClean | src/yfnc_fundpage_scraper.py:74-92 | every raw profile key is ASCII with no `:`, newline or space |
| YfncPages.ProfileRawLaterTablesWin | src/yfnc_fundpage_scraper.py:92 | a key keeps the value of the last table that carries it |
| YfncPages.ProfileRawStep | src/yfnc_fundpage_scraper.py:92 | the last table's dict overrides what the earlier tables give |
| YfncPages.ProfileRawErrorSticks | src/yfnc_fundpage_scraper.py:83-92 | once a title table has raised UnicodeEncodeError, the page read fails the same way |
| YfncPages.SideRaw | src/yfnc_fundpage_scraper.py:152-164 | every key of `securitydata` ends in `__SEC`, and of `categorydata` in `__CAT` |
| YfncPages.SideRawValue | src/yfnc_fundpage_scraper.py:148-164 | for the k-th triple, `label(interval)__SEC` holds cell `3k+1` and `...__CAT` holds cell `3k+2` |
| YfncPages.IntervalRaw | src/yfnc_fundpage_scraper.py:141-167 | one risk table: Ok iff its cell count is a multiple of 3, else AssertionError; then fund values, then category values are merged in |
| YfncPages.RiskRaw | src/yfnc_fundpage_scraper.py:133-168 | a successful read of the risk tables is a well-formed dict |
| YfncPages.BuildRiskRaw | src/yfnc_fundpage_scraper.py:141-167 | the loop over the risk tables computes `RiskRaw` |
| YfncPages.RiskRawOk | src/yfnc_fundpage_scraper.py:144-146 | a risk page is read iff every table has a multiple of three cells, otherwise AssertionError |
| YfncPages.RiskRawStep | src/yfnc_fundpage_scraper.py:141-167 | one more table: the page is read iff the earlier tables are and this one holds whole triples |
| YfncPages.RiskRawErrorSticks | src/yfnc_fundpage_scraper.py:141-167 | once a table has failed the triple assertion, the page read fails the same way |
| YfncPages.SideKeyInjective | src/yfnc_fundpage_scraper.py:154 | within one table and column, keys equal iff labels equal |
| YfncPages.SidesDiffer | src/yfnc_fundpage_scraper.py:154-160 | no key is both a fund (`__SEC`) and a category (`__CAT`) key |
| YfncPages.MergedFund | src/yfnc_fundpage_scraper.py:166-167 | a `__SEC` value survives the category merge after it |
| YfncPages.MergedCategory | src/yfnc_fundpage_scraper.py:167 | a `__CAT` value is in the merged dict |
| YfncPages.RiskRawKeysTagged | src/yfnc_fundpage_scraper.py:152-167 | every raw risk key ends in `__SEC` or `__CAT` |
| YfncPages.PerformanceRaw | src/yfnc_fundpage_scraper.py:209-219 | the paired labels of the second outline table; fewer than two tables gives an empty dict |
| YfncPages.ScrapeProfile | src/yfnc_fundpage_scraper.py:71-101 | the body of the profile loop computes the profile record |
| YfncPages.ScrapeRisk | src/yfnc_fundpage_scraper.py:130-177 | the body of the risk loop computes the risk record |
| YfncPages.ScrapePerformance | src/yfnc_fundpage_scraper.py:200-231 | the body of the performance loop computes the performance record |
| YfncPages.RemappedShape | src/yfnc_fundpage_scraper.py:96-101 | a record always has `ticker`; its other keys are keymap keys; all values are text |
| YfncPages.ProfileRecordFits | src/yfnc_fundpage_scraper.py:96-112 | a profile record fits `profile_fields`, is all text, and has `ticker` |
| YfncPages.RiskRecordFits | src/yfnc_fundpage_scraper.py:172-186 | a risk record fits `risk_fields`, is all text, and keeps its own ticker |
| YfncPages.RiskTickerKept | src/yfnc_fundpage_scraper.py:172-177 | the risk record's `ticker` is the ticker of the page, whatever the page holds |
| YfncPages.PerformanceRecordFits | src/yfnc_fundpage_scraper.py:223-237 | a performance record fits `performance_fields`, is all text, and keeps its own ticker |
| YfncPages.PerformanceWithoutTable | src/yfnc_fundpage_scraper.py:209-219 | with fewer than two outline tables the record is exactly `{"ticker": t}` |
| YfncPages.NoPercentLeft | src/yfnc_fundpage_scraper.py:100 | every profile or performance value is the seeded ticker or text without `%` |
| YfncPages.ProfileTicker | src/yfnc_fundpage_scraper.py:96-101 | with no raw label starting with `ticker`, the record keeps the listed ticker; otherwise the last such label's cleaned value, as unicode page text, replaces it, and the record is writable only if that text is ASCII |
| YfncPages.PageTickerRefused | src/yfnc_fundpage_scraper.py:90-101 | a page whose one table labels a cell `ticker` and prints a non-ASCII text beside it gives a record `writerow` refuses, whatever the listed ticker |
| YfncStandardise.NetAssets | src/yfnc_fundpage_scraper.py:274-280 | after filtering to `[\d\-.MB]`: a text ending in `M` or `B` becomes a number or raises ValueError; any other text stays as filtered |
| YfncStandardise.NetAssetsMillions | src/yfnc_fundpage_scraper.py:276-277 | `"<n>M"` becomes `n` |
| YfncStandardise.NetAssetsBillions | src/yfnc_fundpage_scraper.py:278-279 | `"<n>B"` becomes `1000 n` |
| YfncStandardise.ScaledAmount | src/yfnc_fundpage_scraper.py:275-279 | a numeral followed by `M` or `B` passes the filter unchanged, and loses only its unit letter |
| YfncStandardise.NetAssetsFiltered | src/yfnc_fundpage_scraper.py:269-275 | separators, currency signs and spaces do not change the result |
| YfncStandardise.FloatCell | src/yfnc_fundpage_scraper.py:289-291 | `""` stays; other text becomes the number its kept characters spell, or ValueError; a number makes `re.sub` raise TypeError |
| YfncStandardise.FloatCellNumeral | src/yfnc_fundpage_scraper.py:291 | a numeral field becomes its number |
| YfncStandardise.FloatCellNeedsDigit | src/yfnc_fundpage_scraper.py:290-291 | a non-empty field with no digit raises ValueError |
| YfncStandardise.ColumnsConverted | src/yfnc_fundpage_scraper.py:324-327 | rewriting columns never changes the row's length |
| YfncStandardise.ColumnsConvertedSpec | src/yfnc_fundpage_scraper.py:324-327 | the column loop succeeds iff every listed column exists and converts; it then rewrites exactly the listed columns |
| YfncStandardise.ColumnsConvertedError | src/yfnc_fundpage_scraper.py:324-327 | a failure is raised by some listed column: past the row's end (IndexError) or failing to convert |
| YfncStandardise.ConvertedErrorSticks | src/yfnc_fundpage_scraper.py:324-327 | once a column has failed, later columns do not change the outcome |
| YfncStandardise.ProfileRowStandardised | src/yfnc_fundpage_scraper.py:272-293 | a standardised profile row keeps its length |
| YfncStandardise.ProfileRowSpec | src/yfnc_fundpage_scraper.py:272-293 | Ok iff the row reaches column 10 and columns 3, 2, 9 and 10 convert; those columns are converted and all others, the ticker included, unchanged |
| YfncStandardise.ProfileColumns | src/yfnc_fundpage_scraper.py:287-291 | after net assets, the float loop succeeds iff the row reaches column 10 and columns 2, 9 and 10 convert; other columns stay |
| YfncStandardise.ProfileRowErrors | src/yfnc_fundpage_scraper.py:274-291 | a long-enough row fails only with ValueError |
| YfncStandardise.RiskRowErrors | src/yfnc_fundpage_scraper.py:324-327 | when every listed column exists, a risk row fails only with ValueError |
| YfncStandardise.StandardisedRows | src/yfnc_fundpage_scraper.py:272-293 | one output row per input row |
| YfncStandardise.StandardisedFile | src/yfnc_fundpage_scraper.py:259-293 | an empty file raises StopIteration; otherwise the header is copied unchanged and one row is written per input row |
| YfncStandardise.StandardisedRowsSpec | src/yfnc_fundpage_scraper.py:323-328 | the pass succeeds iff every row standardises; row i is then row i standardised; a failure is some row's |
| YfncStandardise.StandardisedFileSpec | src/yfnc_fundpage_scraper.py:312-328 | Ok iff there is a header and every later row standardises; row i is then input row i standardised |
| YfncStandardise.ConvertColumns | src/yfnc_fundpage_scraper.py:324-327 | the in-place loop over `record[col]` on an array leaves the row `ColumnsConverted` gives; on an exception it returns that exception, with the columns before the failing one already rewritten |
| YfncStandardise.StandardiseProfileRecord | src/yfnc_fundpage_scraper.py:273-291 | one profile row rewritten in place equals `ProfileRowStandardised` |
| YfncStandardise.StandardiseRiskRecord | src/yfnc_fundpage_scraper.py:324-327 | one risk row rewritten in place equals its standardiser |
| YfncStandardise.RowsErrorSticks | src/yfnc_fundpage_scraper.py:272-293 | once a row has failed, the whole pass fails the same way |
| YfncStandardise.RowsExtend | src/yfnc_fundpage_scraper.py:323-328 | a row that standardises is appended after the rows before it |
| YfncStandardise.RowsFail | src/yfnc_fundpage_scraper.py:323-328 | the first row that fails ends the whole pass with its exception |
| YfncStandardise.RowsDone | src/yfnc_fundpage_scraper.py:312-328 | when every row after the header standardises, the file is the header followed by them |
| YfncStandardise.StandardiseProfiles | src/yfnc_fundpage_scraper.py:240-293 | the profile clean-up pass computes `StandardisedFile` with the profile row rule |
| YfncStandardise.StandardiseRisk | src/yfnc_fundpage_scraper.py:300-328 | the risk clean-up pass computes `StandardisedFile` with the listed columns |
| YfncFundpageScraper.Range | src/yfnc_fundpage_scraper.py:190 | `range(lo, hi)` lists `lo` to `hi - 1` in order |
| YfncFundpageScraper.RiskColumnsShape | src/yfnc_fundpage_scraper.py:189-190 | the risk columns standardised are every column but the ticker, each once |
| YfncFundpageScraper.CollectProfiles | src/yfnc_fundpage_scraper.py:67-108 | the `get_profiles` ticker loop computes `Collected` with the profile record |
| YfncFundpageScraper.GetProfiles | src/yfnc_fundpage_scraper.py:62-118 | `get_profiles` computes `ProfilesRun`: the `__UNSTD__` file and its standardised form, or the first exception, which includes the writer's UnicodeEncodeError for a record with non-ASCII page text, the ticker included |
| YfncFundpageScraper.CollectRisk | src/yfnc_fundpage_scraper.py:126-182 | the `get_risk` ticker loop computes `Collected` with the risk record |
| YfncFundpageScraper.GetRisk | src/yfnc_fundpage_scraper.py:120-190 | `get_risk` writes the `__UNSTD__` file and its standardised form |
| YfncFundpageScraper.CollectPerformance | src/yfnc_fundpage_scraper.py:196-235 | the `get_performance` ticker loop always completes |
| YfncFundpageScraper.GetPerformance | src/yfnc_fundpage_scraper.py:192-237 | `get_performance` writes its records straight to the output file |
| YfncFundpageScraper.TextRoundTrip | src/yfnc_fundpage_scraper.py:112-118 | a row written by `writecsv` reads back cell by cell as the byte string of its text; a row of byte strings reads back as itself |
| YfncFundpageScraper.RowOfText | src/yfnc_fundpage_scraper.py:111-112 | a record of text values is written as text cells only |
| YfncFundpageScraper.CollectedRecords | src/yfnc_fundpage_scraper.py:67-108 | the list holds the record of each ticker whose page exists, in ticker order |
| YfncFundpageScraper.ProfileListFits | src/yfnc_fundpage_scraper.py:67-112 | each collected profile record is its ticker's record, fits the header and is all text |
| YfncFundpageScraper.ProfileCollectedErrors | src/yfnc_fundpage_scraper.py:70-108 | the profile loop fails only with UnicodeEncodeError; an IOError is caught |
| YfncFundpageScraper.ProfilesWrittenErrors | src/yfnc_fundpage_scraper.py:111-118 | writing and standardising profiles fails only with ValueError or UnicodeEncodeError, and UnicodeEncodeError only when some record holds a non-ASCII unicode value, the ticker taken from a page included |
| YfncFundpageScraper.ProfileStandardiseErrors | src/yfnc_fundpage_scraper.py:240-293 | standardising a non-empty profile file with full-width rows fails only with ValueError |
| YfncFundpageScraper.ProfilesRunErrors | src/yfnc_fundpage_scraper.py:62-118 | a profile run fails only with UnicodeEncodeError or ValueError |
| YfncFundpageScraper.RiskListFits | src/yfnc_fundpage_scraper.py:126-186 | each collected risk record is its ticker's record, fits the header, is all text and keeps its ticker |
| YfncFundpageScraper.RiskCollectedErrors | src/yfnc_fundpage_scraper.py:144-181 | the risk loop fails only with the uncaught AssertionError |
| YfncFundpageScraper.RiskWrittenErrors | src/yfnc_fundpage_scraper.py:185-190 | writing and standardising risk records fails only with ValueError or UnicodeEncodeError, and UnicodeEncodeError only when some record holds a non-ASCII unicode value, the ticker taken from a page included |
| YfncFundpageScraper.RiskStandardiseErrors | src/yfnc_fundpage_scraper.py:300-328 | standardising a non-empty risk file with full-width rows fails only with ValueError |
| YfncFundpageScraper.RiskRunErrors | src/yfnc_fundpage_scraper.py:120-190 | a risk run fails only with AssertionError, ValueError or UnicodeEncodeError |
| YfncFundpageScraper.PerformanceRunOutcome | src/yfnc_fundpage_scraper.py:192-237 | Ok iff every unicode text in the record of each ticker whose page exists is ASCII, else UnicodeEncodeError; then the header, then one row per such ticker, in ticker order, each that ticker's record |
| YfncFundpageScraper.PerformanceRowsTicker | src/yfnc_fundpage_scraper.py:223-237 | every performance row starts with its own ticker |
| YfncFundpageScraper.PerformanceTickerColumn | src/yfnc_fundpage_scraper.py:223-237 | the first column of a performance row is the page's ticker |
| YfncFundpageScraper.ProfileRowOut | src/yfnc_fundpage_scraper.py:273-293 | a standardised profile row converts net assets, sales load and the two turnovers and copies every other column as read back |
| YfncFundpageScraper.RiskRowOut | src/yfnc_fundpage_scraper.py:323-328 | a standardised risk row copies the ticker as read back and converts every other column |
| YfncFundpageScraper.ProfilesWrittenRows | src/yfnc_fundpage_scraper.py:111-118 | the standardised profile file is the header, then one converted row per record, in list order |
| YfncFundpageScraper.RiskWrittenRows | src/yfnc_fundpage_scraper.py:185-190 | the standardised risk file is the header, then one row per record with the ticker copied and every other column converted |
| GfncFundpageScraper.PerformanceFieldsDistinct | src/gfnc_fundpage_scraper.py:36-37 | the header is `"ticker"` followed by the eight durations, nine distinct columns |
| GfncFundpageScraper.PerformanceText | src/gfnc_fundpage_scraper.py:64 | the performance text is one line of ASCII |
| GfncFundpageScraper.FundData | src/gfnc_fundpage_scraper.py:65-67 | the comprehension gives only durations, with text values |
| GfncFundpageScraper.PerformanceRecord | src/gfnc_fundpage_scraper.py:63-70 | a record's values are all text |
| GfncFundpageScraper.PerformanceRecordSpec | src/gfnc_fundpage_scraper.py:59-71 | the ticker is always present; IndexError leaves the ticker alone; a duration is present iff its pattern matches, holding the leftmost match's signed decimal |
| GfncFundpageScraper.PerformanceRowCells | src/gfnc_fundpage_scraper.py:65-78 | each row is the ticker, then for each duration `""` or a return `float` accepts |
| GfncFundpageScraper.ScrapePerformance | src/gfnc_fundpage_scraper.py:63-70 | the `try` block and `update` compute the performance record |
| GfncFundpageScraper.CollectPerformance | src/gfnc_fundpage_scraper.py:58-71 | the ticker loop computes `Collected` |
| GfncFundpageScraper.GetPerformance | src/gfnc_fundpage_scraper.py:34-78 | `get_performance` computes its run |
| GfncFundpageScraper.PerformanceRunSpec | src/gfnc_fundpage_scraper.py:57-78 | Ok iff every ticker has a saved page whose body holds a `div`; otherwise IOError (no page), AttributeError (no body) or TypeError (no `div`); header first, then one row per ticker, in ticker order |
| GfncFundpageScraper.PerformanceStep | src/gfnc_fundpage_scraper.py:59-71 | a page without a body raises AttributeError, a body without a `div` TypeError; otherwise the step gives the page's record |
| GfncFundpageScraper.PerformanceCollected | src/gfnc_fundpage_scraper.py:57-71 | the ticker loop gives one record per ticker, in order, iff every page has a body with a `div`; each record is its page's, fits the header and is ASCII |
| GfncFundpageScraper.PerformanceRecordEncodable | src/gfnc_fundpage_scraper.py:63-78 | the returns are ASCII, so `writerow` can encode the record |
| GfncScraper.Stripped | src/gfnc_scraper.py:94-95 | each cell of each row is stripped, with the shape kept |
| GfncScraper.ProfileFieldsShape | src/gfnc_scraper.py:63-64 | the profile header has 13 distinct columns, and the asset classes cover the six allocation columns |
| GfncScraper.FieldGroupsDisjoint | src/gfnc_scraper.py:63-64 | management and allocation columns are distinct and disjoint, and neither holds `ticker` |
| GfncScraper.AllocationsCovered | src/gfnc_scraper.py:64 | every allocation column is filled by some asset class |
| GfncScraper.KeymapTargets | src/gfnc_scraper.py:64 | every asset class fills one of the allocation columns |
| GfncScraper.TotalAssets | src/gfnc_scraper.py:100-109 | `""` gives the sentinel `-1.0`; any failure is ValueError or UnicodeEncodeError |
| GfncScraper.TotalAssetsRefused | src/gfnc_scraper.py:100-109 | the field raises UnicodeEncodeError exactly when it holds a character the decimal codec of `float(u)` refuses (NUL, or one beyond Latin-1 that is not whitespace) |
| GfncScraper.TotalAssetsMillions | src/gfnc_scraper.py:102-103 | `"<n>M"` is `n` |
| GfncScraper.TotalAssetsBillions | src/gfnc_scraper.py:104-105 | `"<n>B"` is `1000 n` |
| GfncScraper.TotalAssetsDollars | src/gfnc_scraper.py:108-109 | a bare numeral is dollars divided by 1,000,000 |
| GfncScraper.NoPercent | src/gfnc_scraper.py:114 | the result holds no `%` |
| GfncScraper.AllocationError | src/gfnc_scraper.py:132-133 | a rejected row raises ValueError or KeyError |
| GfncScraper.AllocationsSpec | src/gfnc_scraper.py:131-133 | Ok iff every row has three cells and a known class; all six fields are then present, each holding the last row's percentage or `""`; otherwise the first bad row's exception |
| GfncScraper.AllocationsOutcome | src/gfnc_scraper.py:132-133 | the allocation loop completes iff every row is a good allocation row; otherwise the first rejected row's exception |
| GfncScraper.AllocationsContent | src/gfnc_scraper.py:131-133 | after the loop, exactly the six allocation keys are present, each the last value written for it or `""` |
| GfncScraper.LastFillExtends | src/gfnc_scraper.py:133 | a row that does not fill a field leaves that field's last value alone |
| GfncScraper.AllocationsStuck | src/gfnc_scraper.py:132-133 | once a row has raised, later rows do not change the outcome |
| GfncScraper.ManagementOf | src/gfnc_scraper.py:90-118 | fails only with ValueError or UnicodeEncodeError; when present, it has only management fields, with the total as a number |
| GfncScraper.ManagementCellsSpec | src/gfnc_scraper.py:94-118 | field i is present iff row i exists, holding its value cell after `u.strip()`, cleaned: the total in millions, loads and expense ratio without `%`, `-` as `""` |
| GfncScraper.AllocationOf | src/gfnc_scraper.py:120-136 | fails only with AttributeError or ValueError; when present, all six fields hold the last percentage of their class, read after `u.strip()`, or `""` |
| GfncScraper.AllocationLoop | src/gfnc_scraper.py:131-133 | the allocation loop computes `AllocationsAfter` |
| GfncScraper.ScrapeProfile | src/gfnc_scraper.py:75-141 | the profile `try` block computes the profile record |
| GfncScraper.ProfileRecordSpec | src/gfnc_scraper.py:75-143 | only AttributeError, ValueError and UnicodeEncodeError escape; an appended record has the ticker, header fields only, a numeric total, and all or none of the allocations |
| GfncScraper.CollectProfiles | src/gfnc_scraper.py:66-147 | the profile ticker loop computes `Collected` |
| GfncScraper.GetProfile | src/gfnc_scraper.py:58-151 | `get_profile` computes its run |
| GfncScraper.ProfileRunSpec | src/gfnc_scraper.py:58-151 | Ok iff every ticker has a page, no exception escapes and every unicode text of every record is ASCII; header first, then one row per ticker, in order; once every page is read the only failure is the writer's UnicodeEncodeError; failures are IOError, AttributeError, ValueError or UnicodeEncodeError |
| GfncScraper.ProfileCollected | src/gfnc_scraper.py:66-147 | the ticker loop gives one record per ticker, in order, iff every page is read; each is its page's record and fits the header |
| GfncScraper.ProfileRunKeys | src/gfnc_scraper.py:150-151 | a completed profile run writes exactly one file, at its path |
| GfncScraper.Concat | src/gfnc_scraper.py:215 | `reduce(x + y)` holds exactly the elements of the rows |
| GfncScraper.RiskFieldsShape | src/gfnc_scraper.py:157-162 | the 25-column header is `ticker`, then the grid row by row |
| GfncScraper.RiskFieldsListed | src/gfnc_scraper.py:213-215 | the flattened header, written out |
| GfncScraper.RiskGridInjective | src/gfnc_scraper.py:157-162 | no statistic name occurs twice in the grid |
| GfncScraper.RiskValuesFirstError | src/gfnc_scraper.py:196-197 | a failed conversion raises what the first cell that does not read raises, rows in order and then cells; every cell before it reads |
| GfncScraper.RiskValuesSpec | src/gfnc_scraper.py:196-197 | converted row i holds the values of row i's cells after the first |
| GfncScraper.RiskValueSpec | src/gfnc_scraper.py:196 | a cell reads iff it is `-` or `float(u)` accepts it; UnicodeEncodeError iff it holds NUL or a character beyond Latin-1 that is not whitespace; `-` reads as `""`, anything else as `float`'s number |
| GfncScraper.RiskAfterSpec | src/gfnc_scraper.py:200-201 | after n updates, statistic (i, j) is present iff i < n and row i has value j, holding it |
| GfncScraper.RiskBody | src/gfnc_scraper.py:189-197 | the rows between the header row and the last row, each cell after `u.strip()` |
| GfncScraper.RiskSteps | src/gfnc_scraper.py:200 | `zip` stops at six statistics or at the last converted row |
| GfncScraper.ScrapeRisk | src/gfnc_scraper.py:173-203 | the risk `try` block and update loop compute the risk record |
| GfncScraper.RiskRecordFails | src/gfnc_scraper.py:196-203 | only ValueError and UnicodeEncodeError escape, raised by a body cell after the first that does not read once stripped of Unicode whitespace |
| GfncScraper.RiskRecordCells | src/gfnc_scraper.py:173-203 | statistic (i, j) is present iff table row i+1 (not the last) has cell j+1, holding it stripped of Unicode whitespace and converted; the ticker is always kept |
| GfncScraper.RiskRecordEncodable | src/gfnc_scraper.py:196-203 | a risk record holds only numbers and `""` besides its ticker, so `writerow` encodes it |
| GfncScraper.CollectRisk | src/gfnc_scraper.py:164-211 | the risk ticker loop computes `Collected` |
| GfncScraper.GetRisk | src/gfnc_scraper.py:153-218 | `get_risk` computes its run |
| GfncScraper.RiskRunSpec | src/gfnc_scraper.py:153-218 | Ok iff every ticker has a page whose body holds a `div` and whose body cells all read; header first, then one row per ticker, in order; failures are IOError, TypeError, ValueError or UnicodeEncodeError |
| GfncScraper.RiskRunKeys | src/gfnc_scraper.py:217-218 | a completed risk run writes exactly one file, at its path |
| GfncScraper.EveryOther | src/gfnc_scraper.py:297 | `xs[::2]` holds the elements at even positions |
| GfncScraper.RowText | src/gfnc_scraper.py:300 | a row text is ASCII, has no newline, and is stripped |
| GfncScraper.RowTexts | src/gfnc_scraper.py:300-301 | the filter keeps only non-empty clean texts |
| GfncScraper.RowTextsContents | src/gfnc_scraper.py:300-301 | a text is kept iff it is the non-empty text of some row |
| GfncScraper.RowTextsKeepAll | src/gfnc_scraper.py:300-301 | with no empty texts, every row's text is kept, in order |
| GfncScraper.SignedGroups | src/gfnc_scraper.py:302 | some iff every line has a match; each group is its line's search result |
| GfncScraper.Performance2Lines | src/gfnc_scraper.py:302 | when every line matches, all groups are found |
| GfncScraper.Performance2Data | src/gfnc_scraper.py:286-304 | only IndexError escapes |
| GfncScraper.ScrapePerformance2 | src/gfnc_scraper.py:286-306 | the alternate `try` block computes its record |
| GfncScraper.Performance2RecordSpec | src/gfnc_scraper.py:286-306 | IndexError iff the container or the second subsector is missing; otherwise ticker first, then periods from the return lines when all match, else ticker only |
| GfncScraper.Performance2Zip | src/gfnc_scraper.py:306 | `dict(zip(fields, [ticker] + data))`: period k is present iff there is a k-th value |
| GfncScraper.Performance2Filled | src/gfnc_scraper.py:302-306 | when every line matches, each period holds the group of its line |
| GfncScraper.Performance2Empty | src/gfnc_scraper.py:299-304 | when the second subsector is missing or a line does not match, the data is empty |
| GfncScraper.CollectPerformance2 | src/gfnc_scraper.py:280-310 | the alternate loop over the first ten tickers computes `Collected` |
| GfncScraper.GetPerformance2 | src/gfnc_scraper.py:269-313 | `get_performance2` computes its run |
| GfncScraper.Performance2RunSpec | src/gfnc_scraper.py:269-313 | Ok iff each of the first ten tickers has a page whose body holds a `div` and a usable container; then header first and one row per such ticker, in order; failures are IOError, TypeError or IndexError |
| GfncScraper.Performance2Step | src/gfnc_scraper.py:284-306 | a body without a `div` raises TypeError; a page that is reached gives its record |
| GfncScraper.Performance2DataAscii | src/gfnc_scraper.py:300-302 | the returns read from a page are ASCII, since the row texts are encoded to ASCII first |
| GfncScraper.PerformanceZipEncodable | src/gfnc_scraper.py:306 | a record zipped from ASCII returns is one `writerow` can encode |
| GfncScraper.RunScrape | src/gfnc_scraper.py:40-56 | the three runs in order compute `ScrapeWith` |
| GfncScraper.ScrapePathsDistinct | src/gfnc_scraper.py:40-54 | the three suffixed paths differ from each other and from `outputfile` |
| GfncScraper.RunsWriteOnly | src/gfnc_scraper.py:58-313 | each run writes at most the one path it is given |
| GfncScraper.ScrapeWithKeys | src/gfnc_scraper.py:40-56 | a completed `scrape` writes exactly the three suffixed paths, all distinct and none of them `outputfile` |
| GfncScraper.InsertSuffixHere | src/abstract_scraper.py:29-38 | a bare `stem.ext` base name becomes `stem + suffix + "." + ext` |
| GfncScraper.ScrapeWithErrors | src/gfnc_scraper.py:40-56 | a bad base name stops `scrape` at once with ValueError and no file; any other exception comes from a run |
| GfncScraper.ScrapeWithFiles | src/gfnc_scraper.py:40-56 | a completed `scrape` holds exactly the three files, each at the path its run was given |
| GfncScraper.PerformanceRunAnywhere | src/gfnc_scraper.py:220-267 | the performance table does not depend on the output path |
| GfncScraper.ScrapeSpec | src/gfnc_scraper.py:26-56 | corrected `scrape`: bad name means ValueError and no file; otherwise failures are IOError, AttributeError, TypeError, ValueError or UnicodeEncodeError |
| GfncScraper.ScrapeFiles | src/gfnc_scraper.py:40-56 | corrected `scrape` writes three files at three distinct suffixed paths, none of them `outputfile` |
| GfncScraper.ScrapeTables | src/gfnc_scraper.py:40-56 | corrected `scrape` puts each run's table at its own suffixed path |
| GfncScraper.RunsRaise | src/gfnc_scraper.py:58-218 | the runs raise only IOError, AttributeError, TypeError, ValueError or UnicodeEncodeError |
| GfncScraper.ScrapeAsWrittenMisplaces | src/gfnc_scraper.py:40-42 | as written, the announced performance path gets no file; the table lands at `outputfile` |
| GfncScraper.ScrapeWithMisplaces | src/gfnc_scraper.py:40-42 | the same, for any runs that write only where told |
| GfncScraper.ScrapeAsWrittenExample | src/gfnc_scraper.py:40 | for `"funds.csv"` the announced path is `"funds_performance.csv"` |
| TickerGenerator.CellTicker | src/ticker_generator.py:61 | a cell fails only with AttributeError, KeyError or IndexError |
| TickerGenerator.CellTickerSpec | src/ticker_generator.py:61 | AttributeError iff no link; KeyError iff no href; otherwise the leftmost 2-5 capitals after a slash, or IndexError iff there are none |
| TickerGenerator.PageTickers | src/ticker_generator.py:61-62 | when Ok, one ticker per cell, each that cell's |
| TickerGenerator.PageTickersFails | src/ticker_generator.py:61-62 | a failing page raises the exception of its first failing cell |
| TickerGenerator.WritePage | src/ticker_generator.py:58-65 | one page: the exception of its ticker list with nothing written, or its lines up to the first that cannot be encoded as ASCII, followed by UnicodeEncodeError if there is one |
| TickerGenerator.WriteLines | src/ticker_generator.py:63-65 | the write loop writes the lines before the first one that cannot be encoded, and reports whether it wrote them all |
| TickerGenerator.FirstUnencodable | src/ticker_generator.py:63-65 | every line before it can be encoded as ASCII, and the line at it, if any, cannot |
| TickerGenerator.TickerLineAscii | src/ticker_generator.py:65 | a `ticker\|name` line can be encoded iff its ticker and its name are ASCII |
| TickerGenerator.PairLinesSnoc | src/ticker_generator.py:63-65 | the lines of the first k+1 pairs are those of the first k followed by `ticker + "\|" + name + "\n"` for pair k |
| TickerGenerator.ExtractMarketwatchTickers | src/ticker_generator.py:43-65 | the page loop computes `Extracted` |
| TickerGenerator.ExtractedErrorSticks | src/ticker_generator.py:57-65 | once a page has raised, later pages add nothing |
| TickerGenerator.PairLinesConcat | src/ticker_generator.py:63-65 | the lines of consecutive runs of pairs follow each other |
| TickerGenerator.ExtractedAll | src/ticker_generator.py:57-65 | no error iff every page yields its tickers and every line can be encoded; an error is UnicodeEncodeError or the first exception of the ticker lists; the file holds the lines before the first one that cannot be encoded, in page order |
| TickerGenerator.ExtractedComplete | src/ticker_generator.py:57-65 | the file is written without an error iff every page yields its tickers and every line can be encoded |
| TickerGenerator.FirstUnencodableConcat | src/ticker_generator.py:57-65 | the first unencodable line of two runs of pairs is the first run's, or else the second run's after the first |
| TickerGenerator.AllTickersUpper | src/ticker_generator.py:48-55 | every extracted ticker is 2 to 5 capitals |
| TickerGenerator.PairLinesSplit | src/ticker_generator.py:65 | the file splits into the `ticker\|name` lines, then an empty remainder |
| TickerGenerator.PairLinesReadBack | src/ticker_generator.py:65 | reading the lines back as the ticker list gives the tickers, when names have no newline |
| TickerGenerator.ReadRecordsLines | src/abstract_scraper.py:58-60 | a file split into non-empty lines reads back line by line, each split at `\|` |
| TickerGenerator.TickersOfFirsts | src/abstract_scraper.py:58-60 | records whose first fields are the tickers read back as those tickers |
| TickerGenerator.AllNamesSingleLine | src/ticker_generator.py:60 | when no cell text holds a newline, no extracted name does |
| TickerGenerator.ExtractedReadBack | src/ticker_generator.py:43-65 | a complete ticker file reads back as every page's tickers, in order |
| CreateMutfData.SeededRaw | create_mutf_data.py:142-154 | `raw_profile` is `{"ticker": tkr}` with every title table merged over it |
| CreateMutfData.GetProfile | create_mutf_data.py:132-181 | `get_profile` computes `ProfileOf` |
| CreateMutfData.ProfileOfSpec | create_mutf_data.py:132-181 | Ok iff the page exists and all its labels are ASCII; else IOError or UnicodeEncodeError; the record always has `ticker`, profile fields only, all text |
| CreateMutfData.SeededTicker | create_mutf_data.py:142-178 | the seeded raw `ticker` always reaches the output, through the `"ticker"→"ticker"` remap entry |
| CreateMutfData.ProfileTicker | create_mutf_data.py:171-178 | unless a page label starts with `ticker`, the output ticker is the given ticker cleaned of `%` and `N/A`, and a ticker without `%` or `/` is kept |
| CreateMutfData.GetRisk | create_mutf_data.py:184-262 | `get_risk` computes `RiskOf` |
| CreateMutfData.RiskOfSpec | create_mutf_data.py:184-262 | Ok iff the page exists and every table holds whole triples; else IOError or AssertionError; the record keeps its ticker and has risk fields only |
| CreateMutfData.RiskOfValue | create_mutf_data.py:255-260 | every other risk value is a page value with `N/A` removed and every `%` kept |
| CreateMutfData.NAOnlyValue | create_mutf_data.py:255-260 | a remapped risk value is a raw value with `N/A` removed, holding `%` iff the raw value did |
| CreateMutfData.GetPerformance | create_mutf_data.py:265-296 | `get_performance` computes `PerformanceOf` |
| CreateMutfData.PerformanceOfSpec | create_mutf_data.py:265-296 | Ok iff the page exists and has a second table; a missing table is IndexError; the record keeps the ticker, and no other value has a `%` |
| CreateMutfData.PerformanceReturn | create_mutf_data.py:274-295 | R1, R3, R5 and R10 are present iff a paired label starts with `1-Year`, `3-Year`, `5-Year` or `10-Year`, holding that value cleaned |
| CreateMutfData.ZippedEntry | create_mutf_data.py:280-295 | a key is filled from a zipped table iff some paired label starts with its prefix |
| CreateMutfData.FirstMissing | create_mutf_data.py:62-64 | the first letter without a saved page, or 26 |
| CreateMutfData.MissingFrom | create_mutf_data.py:62-64 | the letters before the result all have pages, and the letter at the result, if any, does not |
| CreateMutfData.GenerateMarketwatchTickers | create_mutf_data.py:46-71 | the loop over A to Z computes `Generated` |
| CreateMutfData.GeneratedSpec | create_mutf_data.py:61-71 | complete iff every letter has a page, every page yields tickers and every line is ASCII; IOError iff a page is missing after pages that all yield and encode; the errors are IOError, UnicodeEncodeError, AttributeError, KeyError and IndexError |
| CreateMutfData.AllTickersErrors | create_mutf_data.py:67-68 | a page's ticker list raises only AttributeError, KeyError or IndexError |
| CreateMutfData.GeneratedReadBack | create_mutf_data.py:61-71 | a complete file reads back as the tickers of pages A to Z, in order |
| CreateMutfData.GenerateDataFile | create_mutf_data.py:299-309 | the writing loop computes `DataFileOf` |
| CreateMutfData.DataFileErrorSticks | create_mutf_data.py:306-308 | once a fund has raised, later funds add nothing |
| CreateMutfData.DataFileSpec | create_mutf_data.py:299-309 | header first, then one row per fund in list order, each fund's record writable; complete iff every fund has a row; otherwise the next fund's record raised, or `writerow` refused it with `WriteError` |
| CreateMutfData.DataFileComplete | create_mutf_data.py:299-309 | when every record is produced, fits the header and holds only ASCII unicode texts, the file is exactly `writecsv`'s table for those records |
| CreateMutfData.ProfileDataFile | create_mutf_data.py:299-309 | for funds whose pages exist with ASCII labels: complete iff every unicode text of every profile is ASCII, with one row per fund; otherwise UnicodeEncodeError |

## Left out

- HTML parsing and tree navigation (BeautifulSoup, tidylib) are not modelled. Each page is
  given as the cell texts or rows its queries return.
- On Yahoo pages, structural misses raise AttributeError and are not modelled:
  - `findNextSibling()` returning None (`src/yfnc_fundpage_scraper.py:84`,
    `create_mutf_data.py:144`);
  - a risk table without a heading cell (`src/yfnc_fundpage_scraper.py:142`,
    `create_mutf_data.py:198`).
  Google pages do model theirs: a page without a body raises AttributeError and a body
  without a `div` raises TypeError (`GfncFundpageScraper.FundPage`, `GfncScraper.TidyPage`).
  The Google profile, risk and alternate-performance runs read the output of
  `tidy_document`, which always has a body, so only the missing `div` arises there.
- `create_mutf_data.py` imports BeautifulSoup 3. There, `findAll(..., class_=...)` filters on
  an attribute literally named `class_`, and `.attrs` is a list of pairs, not a dict. The
  model reads those pages as BeautifulSoup 4 does, like `src/ticker_generator.py`: each query
  is given the cells it is written to select.
- File I/O is not modelled. A page or list file that cannot be opened is an absent map entry
  and stands for IOError. The files written are returned as rows.
- Not modelled, because they are I/O or output only:
  - the `assert os.path.exists(...)` checks on folders;
  - `print` and `pprint` progress output.
- Also I/O only, and not modelled:
  - downloading: `download_*` in `create_mutf_data.py` and `main`;
  - `TickerGenerator.__init__`, which deletes and recreates a folder;
  - `download_marketwatch_ticker_pages`.
- `glob.glob` order in `extract_marketwatch_tickers` is not modelled. The pages are given in
  the order they are listed.
- The csv module's delimiter, quoting and escaping are not modelled. A written row is the
  sequence of its cells. A text cell reads back with the same characters, which assumes
  quoting round-trips. The same holds for the ticker file read back by csv.reader
  (`TickerGenerator.PairLinesReadBack`, `TickerGenerator.ExtractedReadBack`): a fund name that
  starts with `"` or holds a `\r` would be read back differently, and the model does not
  capture that.
- Number formatting in the output is not modelled. `AbstractScraper.RowText` maps a number to
  `""`, because no run reads back a file that holds numbers.
- `float` is modelled as an exact decimal parse to `real`. It accepts an optional sign,
  digits and at most one `.`, with surrounding whitespace; `float(u)` on unicode text first
  turns Unicode whitespace into spaces. Not modelled:
  - IEEE-754 rounding;
  - exponents, `inf` and `nan`;
  - `* 1000.0` and `/ 1000000.0` rounding.
- Decimal.UnicodeFloat: counts the decimal digits of other scripts (all at U+0660 or
  beyond) as refused, with UnicodeEncodeError. Python's decimal codec maps them to ASCII
  digits; the model does not. NUL, Latin-1 and Unicode whitespace are handled as the codec
  does.
- The console `print` that comes before each `f.write` in `extract_marketwatch_tickers` is not
  modelled. It fails on the same line as the write, with the same text already written.
- A file that `writerow` stops part-way: `CreateMutfData.DataFileOf` and the ticker file
  (`TickerGenerator.Extracted`) give the rows or lines written before the refused one. The
  Yahoo and Google runs, which write through `writecsv` (`AbstractScraper.CsvTable`), record
  no file when `writerow` refuses a record, although Python has written the header and the
  earlier rows by then. `GfncScraper.ScrapeOutcome` likewise holds only the files of the runs
  that finished.
- Python 2 dict hash order is replaced by insertion order. `LabelRemap.RemapOrderFree` shows
  this does not matter when no mapped prefix matches two raw labels of the page. When one
  prefix matches two labels of a page (`Category` and a longer label starting with it, say),
  Python keeps the value of whichever label its hash order visits last; the model keeps the
  one inserted last.
- `standardize_performance` is `pass` and has no model.
- `src/fundpage_downloader.py`, `src/driver.py` and `src/create_mutf_data.py` are not part of
  this model. They hold downloading, wiring and commented-out code only.
- CreateMutfData.ProfileOf: the ticker passes through the raw dict and the remap, and the
  model marks it unicode like the page values around it. In Python it stays the byte string
  read from the list unless a page label replaces it, so a non-ASCII ticker in the list
  would be written there but is refused here. The tickers that
  `generate_marketwatch_tickers` extracts are capitals only
  (`TickerGenerator.AllTickersUpper`).
- CreateMutfData.RiskOfValue: states that each value is some page value with `N/A` removed.
  It does not say which one; `LabelRemap.RemappedEntry` names the last matching label.
- GfncScraper.ManagementOf: its own contract gives only the error and the field shape. The
  values are stated by `GfncScraper.ManagementCellsSpec`.
- GfncScraper.Performance2Data: its own contract gives only the error. The record content is
  stated by `GfncScraper.Performance2RecordSpec`.

## Findings

| source | as written | input that shows it | evidently intended | confidence | as-written member | corrected member |
|---|---|---|---|---|---|---|
| src/gfnc_scraper.py:40-42 | `scrape` computes and announces `outputfile_performance`, but calls `get_performance(outputfile=outputfile)`, so the performance table goes to `outputfile` itself and no file is written at the announced path | `outputfile = "funds.csv"`: the announced path is `"funds_performance.csv"`, which stays unwritten, while the table lands in `"funds.csv"` | `get_performance(outputfile=outputfile_performance)`, like the risk and profile runs at lines 47-56 | not executed | GfncScraper.ScrapeAsWrittenMisplaces | GfncScraper.ScrapeFiles |

`GfncScraper.ScrapeAsWritten` models line 42 as written. `GfncScraper.ScrapeAsWrittenExample`
gives the concrete input. `GfncScraper.Scrape` is the corrected `scrape`, and the rest of the
model uses it. `GfncScraper.ScrapeTables` proves that each table then lands at its own
suffixed path.
