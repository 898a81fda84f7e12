# SceneTime torrent provider, modelled in Dafny

This project models the SceneTime provider of SickChill (`sickbeard/providers/scenetime.py`):

- the verdict of `SceneTimeProvider.login` on the response to the login request;
- `SceneTimeProvider.search`:
  - the loop over search modes and their search strings;
  - the search URL built from `urllib.quote` of each search string and the fixed category suffix;
  - skipping pages with no data, no `torrenttable` div or fewer than two rows;
  - column lookup through the labels of the header row;
  - per-row field extraction inside the `try`, and which exceptions skip a row and which escape;
  - the `all([title, download_url])` check;
  - the seeders/leechers thresholds, with Python 2's comparison against `None`;
  - the per-mode stable sort by seeders (largest first) and the concatenation of the modes;
- `SceneTimeProvider._convertSize`, including Python's `float()` grammar, the `modifier in 'KB'` substring chain, the -1 sentinel and `long()` truncation;
- `SceneTimeCache._getRSSData`, one RSS search with the empty search string.

The model is split into these modules:

- `Wrappers` (`wrappers.dfy`): `Option` and `Outcome`, where `Outcome` is a value or the Python exception that was raised.
- `Text` (`text.dfy`): the string operations the code relies on: `re.search` of a literal pattern, `str.replace`, `split('&')[0]`, `strip`, and ASCII case mapping.
- `SizeParser` (`size.dfy`): `_convertSize`.
- `SizeValues` (`sizevalues.dfy`): the values `float()` and `_convertSize` give to decimal literals with a point, to exponents and to sizes.
- `Rows` (`rows.dfy`): the header labels, `labels.index`, and the body of the row `try`.
- `Ranking` (`ranking.dfy`): the stable descending sort.
- `SceneTime` (`scenetime.dfy`): the specification functions for `search`, plus the imperative `Search` and `GetRssData` proved against them. `Search` is split into three loop methods along the source's loop nesting: `CollectMode`, `CollectTerm` and `CollectPage`.
- `SearchFacts` (`facts.dfy`): properties of `search`.
- `SearchExample` (`example.dfy`): a worked example of one page.

Collaborators are parameters, bundled in `SceneTime.Env`:

- the response to the login POST;
- the page fetcher, which stands for `get_url` followed by the HTML parser;
- `urllib.quote`;
- `try_int`.

A fetched page is either `NoData` (`get_url` gave `None` or `""`) or the `tr` rows of the `torrenttable` div. Each row is a sequence of cells. A cell carries its text, already stripped as `get_text(strip=True)` returns it, and the `a` element that `find('a')` gives, if any. A link carries its `href` attribute, if any, and its stripped text.

The code behaves as follows on these inputs; the model follows the code:

- A row shorter than the position of the `Name` label raises `IndexError` at line 114. `IndexError` is not in the `except` tuple at line 124, so it leaves `search`; the row is not skipped.
- An infinite size (for example `inf KB`) makes `long()` raise `OverflowError` outside the `try` of `_convertSize`. That also leaves `search`.
- A NaN size makes `long()` raise `ValueError`. That one is caught at line 124, so the row is skipped.
- Sizes are truncated toward zero, not rounded.
- A size can be negative: `-2 KB` gives -2048.

## Model

| member | source | states |
|---|---|---|
| Text.Contains | sickbeard/providers/scenetime.py:66 | the result is true exactly when the pattern occurs at some position of the text (a literal `re.search`) |
| Text.RemoveAll | sickbeard/providers/scenetime.py:115 | deleting every occurrence of the marker never lengthens the text |
| Text.RemoveAllAbsent | sickbeard/providers/scenetime.py:115 | `replace` leaves a text without the marker unchanged |
| Text.RemoveAllKeepsHead | sickbeard/providers/scenetime.py:115 | a head holding no marker, followed by text starting with a character the marker lacks, is kept whole by `replace`, which then works on the rest |
| Text.BeforeFirst | sickbeard/providers/scenetime.py:115 | `split(c)[0]` is a prefix free of c, and is followed by c whenever it is shorter than the text |
| Text.ReplaceChar | sickbeard/providers/scenetime.py:118 | same length; each space becomes a dot and every other character stays |
| Text.Upper | sickbeard/providers/scenetime.py:154 | upper-casing keeps the length |
| Text.Lower | sickbeard/providers/scenetime.py:157 | lower-casing keeps the length |
| Text.TrimLeft | sickbeard/providers/scenetime.py:155 | removes exactly the leading white space: what is dropped is white space and what remains does not start with it |
| Text.TrimRight | sickbeard/providers/scenetime.py:155 | removes exactly the trailing white space |
| Text.Strip | sickbeard/providers/scenetime.py:155 | `strip` never lengthens the text, and what it gives neither starts nor ends with white space |
| Text.StripTrailing | sickbeard/providers/scenetime.py:155 | `strip` of a text with no white space at either end, followed by white space, gives the text back |
| Text.TrimRightOfSpaces | sickbeard/providers/scenetime.py:155 | trimming on the right removes exactly the white space after a text that does not end in white space |
| SizeParser.LeadingDigits | sickbeard/providers/scenetime.py:157 | the run of digits at the start of the text is maximal |
| SizeParser.Trunc | sickbeard/providers/scenetime.py:171 | `long()` of an exact ratio truncates toward zero, for both signs |
| SizeParser.Suffix | sickbeard/providers/scenetime.py:154 | `size[-2:]` is the last two characters, or the whole of a shorter text |
| SizeParser.Prefix | sickbeard/providers/scenetime.py:155 | `size[:-2]` followed by `size[-2:]` gives back the text |
| SizeParser.UnitRank | sickbeard/providers/scenetime.py:158-167 | the substring chain selects a rank from 0 to 4; an empty modifier is `in` every string, so it selects KB; a modifier longer than two characters matches nothing |
| SizeParser.ParseExponent | sickbeard/providers/scenetime.py:157 | an exponent `float()` accepts is empty, or an `e`/`E` with at least one digit after it, ending in a digit; its value is stated by SizeValues.ExponentOfNat |
| SizeParser.ParseDecimal | sickbeard/providers/scenetime.py:157 | an unsigned decimal literal denotes a finite value that is not negative, and starts with a digit or a point; its value is stated by SizeValues.ParsePointDecimal and SizeValues.ParseDigitsExponent |
| SizeParser.Scaled | sickbeard/providers/scenetime.py:157 | m scaled by 10 to the power e is m * 10^e over 1 when e is not negative, and m over 10^-e otherwise |
| SizeParser.ParseFloat | sickbeard/providers/scenetime.py:157 | `float('')` fails, and a negative finite value comes only from a text starting with `-`; the value of an unsigned literal is stated by SizeValues.ParseUnsigned and SizeValues.DecimalFloat |
| SizeParser.ConvertSize | sickbeard/providers/scenetime.py:153-171 | the only exceptions that can leave `_convertSize` are OverflowError and ValueError |
| SizeParser.SizeOfShortText | sickbeard/providers/scenetime.py:154-155 | a text of at most two characters gives -1 |
| SizeParser.ParseEmpty | sickbeard/providers/scenetime.py:157 | `float('')` fails |
| SizeParser.UnitRankOfPair | sickbeard/providers/scenetime.py:158-167 | for a two-character modifier the `in 'KB'` ... `in 'TB'` chain is equality with KB, MB, GB, TB, giving ranks 1 to 4, else 0 |
| SizeParser.SizeSentinel | sickbeard/providers/scenetime.py:153-169 | a short text, an unknown unit or a numeric part `float()` rejects all give -1 |
| SizeParser.KnownUnitRank | sickbeard/providers/scenetime.py:158-165 | a unit KB, MB, GB or TB in any case selects its power of 1024 |
| SizeParser.SizeOfKnownUnit | sickbeard/providers/scenetime.py:157-171 | with a known unit and a numeric part worth num/den, the result is num/den times 1024 to the rank, truncated |
| SizeParser.SizeOfNonFinite | sickbeard/providers/scenetime.py:157-171 | with a known unit, NaN raises ValueError and an infinity of either sign raises OverflowError |
| SizeParser.SizeOfNatural | sickbeard/providers/scenetime.py:153-171 | a natural number, white space and a unit in any case converts to that number times 1024 to the rank |
| SizeParser.ParseNatural | sickbeard/providers/scenetime.py:157 | `float()` reads a run of digits as its decimal value |
| SizeParser.DecimalOfDigits | sickbeard/providers/scenetime.py:157 | a run of digits is a decimal literal with no point and no exponent |
| SizeValues.DigitsValueAppend | sickbeard/providers/scenetime.py:157 | two digit runs written one after the other are worth the first times 10 to the length of the second, plus the second |
| SizeValues.LeadingDigitsIs | sickbeard/providers/scenetime.py:157 | when the first n characters are digits and the next one is not, the leading digit run has length n |
| SizeValues.ParseUnsigned | sickbeard/providers/scenetime.py:157 | a text starting with a digit or a point is read by `float()` as an unsigned decimal literal, not as a sign or a special word |
| SizeValues.ParsePointDecimal | sickbeard/providers/scenetime.py:157 | `a.b` with at least one digit denotes the digits of a and b together over 10 to the number of digits of b |
| SizeValues.PointParts | sickbeard/providers/scenetime.py:157 | `a.b` splits into the leading digits a, the point, the fraction digits b and an empty exponent |
| SizeValues.ParseDigitsExponent | sickbeard/providers/scenetime.py:157 | a digit run followed by an exponent worth e denotes the run's value times 10 to the e |
| SizeValues.ExponentOfNat | sickbeard/providers/scenetime.py:157 | `e` followed by a numeral n, or `E+` and n, is worth n; `e-` and n is worth -n |
| SizeValues.DecimalFloat | sickbeard/providers/scenetime.py:157 | `float()` reads `a.b` as the digits of a and b together over 10 to the number of digits of b |
| SizeValues.DecimalEnds | sickbeard/providers/scenetime.py:156 | `a.b` neither starts nor ends with white space, so `strip()` keeps it |
| SizeValues.SizeOfNumber | sickbeard/providers/scenetime.py:153-171 | a numeric part `float()` reads as num/den, white space and a unit in any case convert to num/den times 1024 to the rank, truncated toward zero |
| SizeValues.SizeOfDecimal | sickbeard/providers/scenetime.py:153-171 | `a.b`, white space and a unit in any case convert to a.b times 1024 to the rank, truncated toward zero |
| SizeParser.ParseExample | sickbeard/providers/scenetime.py:157 | `float("1.46")` is exactly 146/100 |
| SizeParser.SizeOfExample | sickbeard/providers/scenetime.py:153-171 | "1.46 GB" converts to 1567663063 bytes |
| Rows.Labels | sickbeard/providers/scenetime.py:108 | one label per header cell, its stripped text, in order |
| Rows.IndexOf | sickbeard/providers/scenetime.py:114 | `labels.index` is None exactly when the label is absent, and otherwise the first position holding it |
| Rows.Column | sickbeard/providers/scenetime.py:114 | ValueError exactly when the label is missing; IndexError exactly when the row is shorter than the label's first position; otherwise the cell at that position |
| Rows.TorrentId | sickbeard/providers/scenetime.py:115 | the torrent id never holds `&` |
| Rows.TorrentIdOfDetailsLink | sickbeard/providers/scenetime.py:115 | `details.php?id=<id>` followed by nothing or by `&...` gives back the id |
| Rows.DownloadUrl | sickbeard/providers/scenetime.py:118 | the URL is the download base, the torrent id, `/`, the title with every space turned into a dot, and `.torrent`; no space follows the id |
| Rows.DownloadUrlOfPlainTitle | sickbeard/providers/scenetime.py:118 | a title without spaces is used verbatim as the file name |
| Rows.NameLink | sickbeard/providers/scenetime.py:114 | the Name lookup fails exactly when the label is missing or the row is too short for it, with ValueError or IndexError |
| Rows.ExtractRow | sickbeard/providers/scenetime.py:111-122 | a row that is read yields a download URL longer than the download base, so it is never empty |
| Rows.ExtractRowErrors | sickbeard/providers/scenetime.py:111-122 | each lookup of the row body raises in order: a missing Name label gives ValueError and a row too short for it IndexError; no link gives TypeError; a link without href KeyError; then for Seeders, Leechers and Size in turn, once the earlier lookups went through, a missing label gives ValueError and a row too short for it IndexError; finally an exception of `_convertSize` on the Size text is the row's exception |
| Rows.ExtractRowFields | sickbeard/providers/scenetime.py:112-122 | title is the link text; download URL comes from the torrent id and the dotted title; seeders and leechers are `try_int` of their cells; size is `_convertSize` of its cell |
| Ranking.InsertBySeeders | sickbeard/providers/scenetime.py:143 | inserting into a non-increasing sequence keeps it non-increasing and adds exactly that item |
| Ranking.SortBySeeders | sickbeard/providers/scenetime.py:143 | the result is non-increasing in seeders and a permutation of the input |
| Ranking.InsertKeepsTies | sickbeard/providers/scenetime.py:143 | an inserted item goes ahead of the items with as many seeders, keeping their order |
| Ranking.SortIsStable | sickbeard/providers/scenetime.py:143 | items with equal seeders keep their relative order (stability) |
| Ranking.StableSortIsUnique | sickbeard/providers/scenetime.py:143 | any non-increasing order that keeps every tie group in order is that sort's result, so the model is Python's `sort(reverse=True)` |
| SceneTime.LoginVerdict | sickbeard/providers/scenetime.py:56-70 | no or empty response fails; a response containing "Username or password incorrect" fails; any other response succeeds |
| SceneTime.SearchUrl | sickbeard/providers/scenetime.py:87 | the URL is the search base, the quoted search string and the category suffix, in that order |
| SceneTime.SearchUrlInjective | sickbeard/providers/scenetime.py:87 | search strings with different quoted forms are requested at different URLs |
| SceneTime.ThresholdComparison | sickbeard/providers/scenetime.py:131 | a None threshold lets every item through (Python 2 orders None below every int); an int threshold is an ordinary minimum |
| SceneTime.RowItems | sickbeard/providers/scenetime.py:110-140 | a row adds at most one item, which has a title and meets both thresholds; the only exceptions it lets out are IndexError and OverflowError |
| SceneTime.PageItems | sickbeard/providers/scenetime.py:110-140 | a page adds at most one item per data row; only IndexError and OverflowError escape it |
| SceneTime.TermItems | sickbeard/providers/scenetime.py:90-140 | no data or no table adds nothing; the items of a page are fewer than its rows; only IndexError and OverflowError escape |
| SceneTime.ModeItems | sickbeard/providers/scenetime.py:82-140 | a mode without search strings collects nothing; only IndexError and OverflowError escape |
| SceneTime.ModeRequests | sickbeard/providers/scenetime.py:82-90 | at most one request per search string, at least one when there is a search string, and exactly one per search string when nothing escapes |
| SceneTime.SearchResults | sickbeard/providers/scenetime.py:80-145 | only IndexError and OverflowError escape `search` |
| SceneTime.SearchRequests | sickbeard/providers/scenetime.py:80-145 | an exception escapes only after some search page was requested |
| SceneTime.PageRaiseSticks | sickbeard/providers/scenetime.py:110-125 | once a row raises an uncaught exception, the rest of the page changes nothing |
| SceneTime.ModeRaiseSticks | sickbeard/providers/scenetime.py:82-125 | after an escaping exception no further search string is fetched or used |
| SceneTime.SearchRaiseSticks | sickbeard/providers/scenetime.py:80-125 | after an escaping exception no further mode is fetched or used |
| SceneTime.PageStep | sickbeard/providers/scenetime.py:110-140 | one more row appends what that row adds, or raises what it raises |
| SceneTime.ModeStep | sickbeard/providers/scenetime.py:82-110 | one more search string requests its URL and appends its page's items |
| SceneTime.SearchStep | sickbeard/providers/scenetime.py:80-145 | one more mode appends its items sorted by seeders and requests its URLs |
| SceneTime.CollectPage | sickbeard/providers/scenetime.py:110-140 | the row loop appends exactly the page's kept items to `items[mode]`, or returns the exception that escapes |
| SceneTime.CollectTerm | sickbeard/providers/scenetime.py:90-110 | fetching one search page appends exactly that page's items, or returns its exception |
| SceneTime.CollectMode | sickbeard/providers/scenetime.py:82-140 | the search-string loop appends exactly the mode's items and requests exactly the mode's URLs |
| SceneTime.Search | sickbeard/providers/scenetime.py:72-147 | a failed login returns `[]` with no search request; otherwise the result and the requested URLs are the per-mode sorted blocks in mode order, up to the first escaping exception |
| SceneTime.RssSearchIsOnePage | sickbeard/providers/scenetime.py:181-183 | the RSS search requests only the empty-term URL and returns that page's items sorted by seeders |
| SceneTime.GetRssData | sickbeard/providers/scenetime.py:181-183 | `_getRSSData` fetches one page, for the empty search string, and its entries are sorted by seeders |
| SearchFacts.PageAppend | sickbeard/providers/scenetime.py:110-140 | the row loop over two runs of rows is the loop over the first followed by the loop over the second |
| SearchFacts.SingleRowPage | sickbeard/providers/scenetime.py:110-140 | a page of one data row yields what that row adds |
| SearchFacts.RowThatAddsNothing | sickbeard/providers/scenetime.py:124-134 | a row that adds nothing makes a one-row page yield nothing |
| SearchFacts.EmptyRunIsDropped | sickbeard/providers/scenetime.py:110-140 | rows that together add nothing can be left out of a page |
| SearchFacts.SkippedRowIsDropped | sickbeard/providers/scenetime.py:124-134 | a row skipped by the `except`, the `all` check or a threshold leaves the page as it would be without that row, so later rows are still processed |
| SearchFacts.UncaughtRowEscapes | sickbeard/providers/scenetime.py:111-125 | a row whose body raises IndexError or OverflowError, which the `except` does not name, makes the page raise that exception once the earlier rows went through |
| SearchFacts.CaughtRowIsSkipped | sickbeard/providers/scenetime.py:111-125 | a row whose body raises ValueError, TypeError or KeyError is skipped: the page is as it would be without that row |
| SearchFacts.EmissionIgnoresSize | sickbeard/providers/scenetime.py:127-140 | a row that was read is kept exactly when its title is non-empty and it meets both thresholds, whatever its size (-1 included) |
| SearchFacts.ExtractedLink | sickbeard/providers/scenetime.py:114-118 | the download URL of a read item is built from the torrent id of some Name link href |
| SearchFacts.RowSound | sickbeard/providers/scenetime.py:110-140 | every item a row adds is admissible: non-empty title, both thresholds met, download URL from a torrent id |
| SearchFacts.PageSound | sickbeard/providers/scenetime.py:110-140 | every item a page adds is admissible |
| SearchFacts.ModeSound | sickbeard/providers/scenetime.py:82-140 | every item a mode collects is admissible |
| SearchFacts.SearchSound | sickbeard/providers/scenetime.py:72-147 | every item `search` returns is admissible; no returned item has fewer seeders or leechers than the thresholds |
| SearchFacts.PageWithoutTorrents | sickbeard/providers/scenetime.py:90-103 | a page with no data, no table or fewer than two rows adds nothing; its URL is still requested and the next string follows |
| SearchExample.ExampleColumns | sickbeard/providers/scenetime.py:114-122 | the labels Name, Size, Seeders, Leechers are found at positions 0 to 3 |
| SearchExample.ExampleLink | sickbeard/providers/scenetime.py:115-118 | `details.php?id=123` with that title gives `https://www.scenetime.com/download.php/123/Example.Release.Title.torrent` |
| SearchExample.ExampleExtraction | sickbeard/providers/scenetime.py:111-122 | the example row is read as 1567663063 bytes, 120 seeders, 3 leechers |
| SearchExample.ExamplePage | sickbeard/providers/scenetime.py:110-140 | with thresholds 0 the example page yields exactly that item |
| SearchExample.ExamplePageBelowThreshold | sickbeard/providers/scenetime.py:131-134 | with a minimum of 5 leechers the example page yields nothing |
| SearchExample.ExampleWithoutSeeders | sickbeard/providers/scenetime.py:120-125 | without a Seeders label the row raises ValueError and is skipped |
| SearchExample.ExampleShortRow | sickbeard/providers/scenetime.py:120-124 | a two-cell row is too short for the Seeders column and the page raises IndexError |
| SearchExample.InfiniteKilobytes | sickbeard/providers/scenetime.py:153-171 | "inf KB" makes `_convertSize` raise OverflowError |
| SearchExample.ExampleInfiniteSize | sickbeard/providers/scenetime.py:122-124 | a row with size "inf KB" makes the page raise OverflowError |

## Left out

- Transport: `get_url` and its request and cookie handling, the login POST parameters (username and password), and the 30-second timeout are not modelled. The login response and the fetched pages are given as `Env` values.
- Parsing: BS4/html5lib parsing is not modelled. Pages arrive as rows of cells whose texts are already stripped. Because the parsed data is typed, `AttributeError` (in the `except` tuple) cannot arise.
- Logging is left out. It has no effect on results, except for the line 85 case below.
- `urllib.quote` and `try_int` are uninterpreted parameters. `try_int` is assumed never to raise.
- The `quote` collaborator of `Env` is total. Python 2's `urllib.quote` raises KeyError on a unicode search string holding non-ASCII characters, and line 87 is outside any `try`, so `search` would raise there; the model does not capture that exception.
- Byte-string search strings are not modelled. In every mode but RSS, line 85 formats the search string into a unicode log message, which decodes a byte string as ASCII. A byte string holding non-ASCII bytes makes that raise UnicodeDecodeError outside any `try`, so `search` raises. The model's search strings are Unicode text, so that input is outside the model.
- The `fetch` collaborator of `Env` is a function of the URL, so a search string repeated within one search always gets the same page; a server whose answer changes between requests is not modelled.
- Float precision: the numeric part of a size is kept as an exact rational, so double-precision rounding is not modelled. Neither is the overflow of a huge finite value to infinity: `1e400 KB` raises OverflowError in the source but gives a number in the model.
- Unicode in `float()`: Python 2's `float()` also accepts non-ASCII decimal digits; the model accepts ASCII digits only.
- Text.Upper: states only that the length is kept. Case mapping is ASCII-only, which is enough for comparing with KB, MB, GB, TB.
- Text.Lower: states only that the length is kept. Case mapping is ASCII-only, which is enough for `inf`, `infinity` and `nan`.
- Text.RemoveAll: its own contract is only the length bound. What `replace` does to detail links is stated by Text.RemoveAllAbsent, Text.RemoveAllKeepsHead and Rows.TorrentIdOfDetailsLink.
- Rows.ExtractRow: its own contract says only that the download URL of a read row is never empty. Every exception and every field of the row body is stated by Rows.ExtractRowErrors and Rows.ExtractRowFields. They are kept out of the function so that the loop proofs about `search` stay small.
- Rows.TorrentId: its own contract says only that the id holds no `&`. The id of a well-formed details link is stated by Rows.TorrentIdOfDetailsLink.
- SceneTime.Search: `search_params` is an ordered sequence of distinct modes, drawn from Season, Episode and RSS. It stands for the dictionary's keys in iteration order. Any other key makes the source raise KeyError at line 140 at the first kept item of that mode, or at line 143 when none is kept; the model does not admit such keys.
- SceneTime.Search: the `age` and `ep_obj` parameters are unused by the source and are omitted.
- `seed_ratio`, the constructor defaults, the 20-minute `minTime` of the cache, `TVCache` itself and the module-level `provider` instance are not modelled.
