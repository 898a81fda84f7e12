/** `SceneTimeProvider.login` (its verdict), `SceneTimeProvider.search` and
    `SceneTimeCache._getRSSData`, with the network, the HTML parser, `urllib.quote` and `try_int`
    supplied as collaborators. */
module SceneTime {
  import opened Wrappers
  import opened Text
  import opened SizeParser
  import opened Rows
  import opened Ranking

  const LoginFailureMarker := "Username or password incorrect"
  const SearchBase := "https://www.scenetime.com/browse.php?search="
  const Categories := "&c2=1&c43=13&c9=1&c63=1&c77=1&c79=1&c100=1&c101=1"

  /** The keys of `items`. Any other mode makes `search` raise KeyError, so no other is admitted. */
  datatype Mode = Season | Episode | RSS

  /** One entry of `search_params`: a mode and its search strings. */
  datatype Query = Query(mode: Mode, terms: seq<string>)

  /** `minseed` and `minleech`; None is Python's None. */
  datatype Settings = Settings(minseed: Option<int>, minleech: Option<int>)

  /** A search page as `get_url` and the parser deliver it: NoData when `get_url` gave None or "",
      otherwise the `tr` rows of the `torrenttable` div, when there is such a div. */
  datatype Response = NoData | Html(torrentTable: Option<seq<Row>>)

  /** The collaborators: the response to the login POST, the page fetcher, `urllib.quote` and
      `try_int`. */
  datatype Env = Env(loginResponse: Option<string>, fetch: string -> Response,
                     quote: string -> string, tryInt: string -> int)

  /** The verdict of `login` on the response to the login POST. */
  function LoginVerdict(response: Option<string>): (ok: bool)
    ensures response.None? || response == Some([]) ==> !ok
    ensures response.Some? && Occurs(response.value, LoginFailureMarker) ==> !ok
    ensures response.Some? && response.value != [] && !Occurs(response.value, LoginFailureMarker) ==> ok
  {
    response.Some? && response.value != [] && !Contains(response.value, LoginFailureMarker)
  }

  /** `self.urls['search'] % (urllib.quote(search_string), self.categories)`. */
  function SearchUrl(quote: string -> string, term: string): (url: string)
    ensures |url| == |SearchBase| + |quote(term)| + |Categories|
    ensures url[..|SearchBase|] == SearchBase && url[|url| - |Categories|..] == Categories
    ensures url[|SearchBase|..|url| - |Categories|] == quote(term)
  {
    SearchBase + quote(term) + Categories
  }

  /** Distinct quoted search strings are requested at distinct URLs. */
  lemma SearchUrlInjective(quote: string -> string, a: string, b: string)
    requires quote(a) != quote(b)
    ensures SearchUrl(quote, a) != SearchUrl(quote, b)
  {
  }

  /** `x < threshold` in Python 2, where every int is greater than None. */
  predicate Below(x: int, threshold: Option<int>) {
    threshold.Some? && x < threshold.value
  }

  /** `all([title, download_url])`. */
  predicate Complete(item: Item) {
    item.title != [] && item.downloadUrl != []
  }

  predicate MeetsThresholds(item: Item, s: Settings) {
    !Below(item.seeders, s.minseed) && !Below(item.leechers, s.minleech)
  }

  /** Python 2 orders None below every int, so a threshold of None lets every item through; an int
      threshold is an ordinary minimum. */
  lemma ThresholdComparison(item: Item, s: Settings)
    ensures s.minseed.None? && s.minleech.None? ==> MeetsThresholds(item, s)
    ensures s.minseed.Some? && s.minleech.Some? ==>
              (MeetsThresholds(item, s) <==> item.seeders >= s.minseed.value && item.leechers >= s.minleech.value)
    ensures s.minseed.None? && s.minleech.Some? ==> (MeetsThresholds(item, s) <==> item.leechers >= s.minleech.value)
    ensures s.minseed.Some? && s.minleech.None? ==> (MeetsThresholds(item, s) <==> item.seeders >= s.minseed.value)
  {
  }

  /** The exception classes of the `except` clause that can arise (AttributeError cannot). */
  predicate Caught(e: PyError) {
    e == ValueError || e == TypeError || e == KeyError
  }

  /** What one data row adds to `items[mode]`, or the exception that leaves `search`. */
  function RowItems(labels: seq<string>, row: Row, s: Settings, tryInt: string -> int): (r: Outcome<seq<Item>>)
    ensures r.Raise? ==> r.error == IndexError || r.error == OverflowError
    ensures r.Ok? ==> |r.value| <= 1
    ensures r.Ok? && r.value != [] ==> r.value[0].title != [] && MeetsThresholds(r.value[0], s)
  {
    match ExtractRow(labels, row, tryInt)
    case Raise(e) => if Caught(e) then Ok([]) else Raise(e)
    case Ok(item) => if Complete(item) && MeetsThresholds(item, s) then Ok([item]) else Ok([])
  }

  /** The row loop over the data rows of one page. */
  function PageItems(labels: seq<string>, rows: seq<Row>, s: Settings, tryInt: string -> int): (r: Outcome<seq<Item>>)
    ensures r.Raise? ==> r.error == IndexError || r.error == OverflowError
    ensures r.Ok? ==> |r.value| <= |rows|
    decreases |rows|
  {
    if rows == [] then Ok([])
    else
      var acc :- PageItems(labels, rows[..|rows| - 1], s, tryInt);
      var more :- RowItems(labels, rows[|rows| - 1], s, tryInt);
      Ok(acc + more)
  }

  /** One search string's page: nothing when there is no data, no table or fewer than two rows;
      otherwise the first row gives the labels and the rest are the data rows. */
  function TermItems(page: Response, s: Settings, tryInt: string -> int): (r: Outcome<seq<Item>>)
    ensures r.Raise? ==> r.error == IndexError || r.error == OverflowError
    ensures page.NoData? || page.torrentTable.None? ==> r == Ok([])
    ensures r.Ok? && r.value != [] ==> page.Html? && page.torrentTable.Some? && |r.value| < |page.torrentTable.value|
  {
    var rows := if page.Html? && page.torrentTable.Some? then page.torrentTable.value else [];
    if |rows| < 2 then Ok([])
    else PageItems(Labels(rows[0]), rows[1..], s, tryInt)
  }

  /** What `items[mode]` collects over a mode's search strings, before sorting. */
  function ModeItems(env: Env, s: Settings, terms: seq<string>): (r: Outcome<seq<Item>>)
    ensures r.Raise? ==> r.error == IndexError || r.error == OverflowError
    ensures terms == [] ==> r == Ok([])
    decreases |terms|
  {
    if terms == [] then Ok([])
    else
      var acc :- ModeItems(env, s, terms[..|terms| - 1]);
      var more :- TermItems(env.fetch(SearchUrl(env.quote, terms[|terms| - 1])), s, env.tryInt);
      Ok(acc + more)
  }

  /** The search pages requested for a mode's search strings: up to and including the one whose
      page raised, if any did. */
  function ModeRequests(env: Env, s: Settings, terms: seq<string>): (r: seq<string>)
    ensures |r| <= |terms|
    ensures terms != [] ==> r != []
    ensures ModeItems(env, s, terms).Ok? ==> |r| == |terms|
    decreases |terms|
  {
    if terms == [] then []
    else
      var before := terms[..|terms| - 1];
      if ModeItems(env, s, before).Raise? then ModeRequests(env, s, before)
      else ModeRequests(env, s, before) + [SearchUrl(env.quote, terms[|terms| - 1])]
  }

  /** `results` after the mode loop: each mode's items sorted by seeders, appended in mode order. */
  function SearchResults(env: Env, s: Settings, params: seq<Query>): (r: Outcome<seq<Item>>)
    ensures r.Raise? ==> r.error == IndexError || r.error == OverflowError
    decreases |params|
  {
    if params == [] then Ok([])
    else
      var acc :- SearchResults(env, s, params[..|params| - 1]);
      var block :- ModeItems(env, s, params[|params| - 1].terms);
      Ok(acc + SortBySeeders(block))
  }

  /** The search pages requested over all modes, up to the exception, if one was raised. */
  function SearchRequests(env: Env, s: Settings, params: seq<Query>): (r: seq<string>)
    ensures SearchResults(env, s, params).Raise? ==> r != []
    decreases |params|
  {
    if params == [] then []
    else
      var before := params[..|params| - 1];
      if SearchResults(env, s, before).Raise? then SearchRequests(env, s, before)
      else SearchRequests(env, s, before) + ModeRequests(env, s, params[|params| - 1].terms)
  }

  /** The modes are the keys of a dictionary. */
  ghost predicate DistinctModes(params: seq<Query>) {
    forall i, j :: 0 <= i < j < |params| ==> params[i].mode != params[j].mode
  }

  /** Once a page raises, the rest of the page changes nothing. */
  lemma {:induction false} PageRaiseSticks(labels: seq<string>, rows: seq<Row>, n: nat, s: Settings, tryInt: string -> int)
    requires n <= |rows| && PageItems(labels, rows[..n], s, tryInt).Raise?
    ensures PageItems(labels, rows, s, tryInt) == PageItems(labels, rows[..n], s, tryInt)
    decreases |rows|
  {
    if n < |rows| {
      var before := rows[..|rows| - 1];
      assert before[..n] == rows[..n];
      PageRaiseSticks(labels, before, n, s, tryInt);
    } else {
      assert rows[..n] == rows;
    }
  }

  /** Once a search string's page raises, the later search strings are neither fetched nor used. */
  lemma {:induction false} ModeRaiseSticks(env: Env, s: Settings, terms: seq<string>, n: nat)
    requires n <= |terms| && ModeItems(env, s, terms[..n]).Raise?
    ensures ModeItems(env, s, terms) == ModeItems(env, s, terms[..n])
    ensures ModeRequests(env, s, terms) == ModeRequests(env, s, terms[..n])
    decreases |terms|
  {
    if n < |terms| {
      var before := terms[..|terms| - 1];
      assert before[..n] == terms[..n];
      ModeRaiseSticks(env, s, before, n);
    } else {
      assert terms[..n] == terms;
    }
  }

  /** Once a mode raises, the later modes are neither fetched nor used. */
  lemma {:induction false} SearchRaiseSticks(env: Env, s: Settings, params: seq<Query>, n: nat)
    requires n <= |params| && SearchResults(env, s, params[..n]).Raise?
    ensures SearchResults(env, s, params) == SearchResults(env, s, params[..n])
    ensures SearchRequests(env, s, params) == SearchRequests(env, s, params[..n])
    decreases |params|
  {
    if n < |params| {
      var before := params[..|params| - 1];
      assert before[..n] == params[..n];
      SearchRaiseSticks(env, s, before, n);
    } else {
      assert params[..n] == params;
    }
  }

  /** One more data row: the page so far, then what the row adds. */
  lemma PageStep(labels: seq<string>, rows: seq<Row>, k: nat, s: Settings, tryInt: string -> int)
    requires k < |rows| && PageItems(labels, rows[..k], s, tryInt).Ok?
    ensures RowItems(labels, rows[k], s, tryInt).Raise? ==>
              PageItems(labels, rows[..k + 1], s, tryInt) == RowItems(labels, rows[k], s, tryInt)
    ensures RowItems(labels, rows[k], s, tryInt).Ok? ==>
              PageItems(labels, rows[..k + 1], s, tryInt) ==
              Ok(PageItems(labels, rows[..k], s, tryInt).value + RowItems(labels, rows[k], s, tryInt).value)
  {
    assert rows[..k + 1][..k] == rows[..k];
  }

  /** One more search string: the mode so far, then what its page adds; one more URL requested. */
  lemma ModeStep(env: Env, s: Settings, terms: seq<string>, j: nat)
    requires j < |terms| && ModeItems(env, s, terms[..j]).Ok?
    ensures ModeRequests(env, s, terms[..j + 1]) == ModeRequests(env, s, terms[..j]) + [SearchUrl(env.quote, terms[j])]
    ensures var page := TermItems(env.fetch(SearchUrl(env.quote, terms[j])), s, env.tryInt);
            (page.Raise? ==> ModeItems(env, s, terms[..j + 1]) == page) &&
            (page.Ok? ==> ModeItems(env, s, terms[..j + 1]) == Ok(ModeItems(env, s, terms[..j]).value + page.value))
  {
    assert terms[..j + 1][..j] == terms[..j];
  }

  /** One more mode: the results so far, then the mode's items sorted; its URLs requested. */
  lemma SearchStep(env: Env, s: Settings, params: seq<Query>, i: nat, results: seq<Item>, requested: seq<string>,
                    collected: Outcome<seq<Item>>, urls: seq<string>)
    requires i < |params|
    requires SearchResults(env, s, params[..i]) == Ok(results) && SearchRequests(env, s, params[..i]) == requested
    requires var block := ModeItems(env, s, params[i].terms);
             && (block.Ok? ==> collected == Ok([] + block.value))
             && (block.Raise? ==> collected == block)
    requires urls == ModeRequests(env, s, params[i].terms)
    ensures SearchRequests(env, s, params[..i + 1]) == requested + urls
    ensures collected.Raise? ==> SearchResults(env, s, params[..i + 1]) == collected
    ensures collected.Ok? ==> SearchResults(env, s, params[..i + 1]) == Ok(results + SortBySeeders(collected.value))
  {
    assert params[..i + 1][..i] == params[..i];
    var block := ModeItems(env, s, params[i].terms);
    if block.Ok? {
      assert [] + block.value == block.value;
    }
  }

  lemma AppendAssoc(a: seq<Item>, b: seq<Item>, c: seq<Item>)
    ensures a + b + c == a + (b + c)
  {
  }

  /** The row loop of `search` over one page's data rows, appending to `acc` (`items[mode]`):
      a caught exception, an incomplete item or one below a threshold skips the row; any other
      exception stops the loop and leaves `search`. */
  method CollectPage(labels: seq<string>, dataRows: seq<Row>, s: Settings, tryInt: string -> int, acc: seq<Item>)
    returns (r: Outcome<seq<Item>>)
    ensures PageItems(labels, dataRows, s, tryInt).Ok? ==> r == Ok(acc + PageItems(labels, dataRows, s, tryInt).value)
    ensures PageItems(labels, dataRows, s, tryInt).Raise? ==> r == PageItems(labels, dataRows, s, tryInt)
  {
    var items := acc;
    ghost var page: seq<Item> := [];
    for k := 0 to |dataRows|
      invariant PageItems(labels, dataRows[..k], s, tryInt) == Ok(page)
      invariant items == acc + page
    {
      PageStep(labels, dataRows, k, s, tryInt);
      var row := ExtractRow(labels, dataRows[k], tryInt);
      if row.Raise? {
        if Caught(row.error) {
          assert page + [] == page;
          continue;
        }
        PageRaiseSticks(labels, dataRows, k + 1, s, tryInt);
        return Raise(row.error);
      }
      var item := row.value;
      if !Complete(item) {
        assert page + [] == page;
        continue;
      }
      if Below(item.seeders, s.minseed) || Below(item.leechers, s.minleech) {
        assert page + [] == page;
        continue;
      }
      items := items + [item];
      page := page + [item];
    }
    assert dataRows[..|dataRows|] == dataRows;
    return Ok(items);
  }

  /** The body of the loop of `search` over a mode's search strings, once the URL is built: fetch
      the page, skip it when there is no data, no table or fewer than two rows, otherwise read the
      labels from the first row and collect the data rows into `acc` (`items[mode]`). */
  method CollectTerm(env: Env, s: Settings, url: string, acc: seq<Item>) returns (r: Outcome<seq<Item>>)
    ensures TermItems(env.fetch(url), s, env.tryInt).Ok? ==> r == Ok(acc + TermItems(env.fetch(url), s, env.tryInt).value)
    ensures TermItems(env.fetch(url), s, env.tryInt).Raise? ==> r == TermItems(env.fetch(url), s, env.tryInt)
  {
    var data := env.fetch(url);
    if data.NoData? {
      assert acc + [] == acc;
      return Ok(acc);
    }
    var torrentRows: seq<Row> := [];
    if data.torrentTable.Some? {
      torrentRows := data.torrentTable.value;
    }
    if |torrentRows| < 2 {
      assert acc + [] == acc;
      return Ok(acc);
    }
    var labels := Labels(torrentRows[0]);
    r := CollectPage(labels, torrentRows[1..], s, env.tryInt, acc);
  }

  /** The loop of `search` over one mode's search strings, collecting into `acc` (`items[mode]`). */
  method CollectMode(env: Env, s: Settings, terms: seq<string>, acc: seq<Item>)
    returns (r: Outcome<seq<Item>>, requested: seq<string>)
    ensures ModeItems(env, s, terms).Ok? ==> r == Ok(acc + ModeItems(env, s, terms).value)
    ensures ModeItems(env, s, terms).Raise? ==> r == ModeItems(env, s, terms)
    ensures requested == ModeRequests(env, s, terms)
  {
    var items := acc;
    requested := [];
    for j := 0 to |terms|
      invariant ModeItems(env, s, terms[..j]).Ok?
      invariant items == acc + ModeItems(env, s, terms[..j]).value
      invariant requested == ModeRequests(env, s, terms[..j])
    {
      ModeStep(env, s, terms, j);
      var url := SearchUrl(env.quote, terms[j]);
      requested := requested + [url];
      ghost var before := ModeItems(env, s, terms[..j]).value;
      ghost var page := TermItems(env.fetch(url), s, env.tryInt);
      var collected := CollectTerm(env, s, url, items);
      if collected.Raise? {
        ModeRaiseSticks(env, s, terms, j + 1);
        return collected, requested;
      }
      AppendAssoc(acc, before, page.value);
      items := collected.value;
    }
    assert terms[..|terms|] == terms;
    return Ok(items), requested;
  }

  /** `SceneTimeProvider.search`. It returns the items, or the exception that leaves it (IndexError
      from a row shorter than a label's position, OverflowError from an infinite size), together
      with the search URLs it requested. A failed login returns `[]` before any search page is
      requested. */
  method Search(env: Env, s: Settings, params: seq<Query>) returns (r: Outcome<seq<Item>>, requested: seq<string>)
    requires DistinctModes(params)
    ensures !LoginVerdict(env.loginResponse) ==> r == Ok([]) && requested == []
    ensures LoginVerdict(env.loginResponse) ==>
              r == SearchResults(env, s, params) && requested == SearchRequests(env, s, params)
  {
    var results: seq<Item> := [];
    var items: map<Mode, seq<Item>> := map[Season := [], Episode := [], RSS := []];
    requested := [];
    if !LoginVerdict(env.loginResponse) {
      return Ok(results), requested;
    }
    assert forall m: Mode :: m in items by {
      forall m: Mode ensures m in items {
        match m
        case Season =>
        case Episode =>
        case RSS =>
      }
    }
    for i := 0 to |params|
      invariant SearchResults(env, s, params[..i]) == Ok(results)
      invariant SearchRequests(env, s, params[..i]) == requested
      invariant forall m :: m in items
      invariant forall k :: i <= k < |params| ==> items[params[k].mode] == []
    {
      var mode := params[i].mode;
      assert items[mode] == [];
      var collected, urls := CollectMode(env, s, params[i].terms, items[mode]);
      SearchStep(env, s, params, i, results, requested, collected, urls);
      requested := requested + urls;
      if collected.Raise? {
        SearchRaiseSticks(env, s, params, i + 1);
        return collected, requested;
      }
      items := items[mode := collected.value];
      items := items[mode := SortBySeeders(items[mode])];
      results := results + items[mode];
      assert forall k :: i < k < |params| ==> params[k].mode != mode;
    }
    assert params[..|params|] == params;
    return Ok(results), requested;
  }

  /** The search parameters of `_getRSSData`: the RSS mode with one empty search string. */
  const RssQuery := [Query(RSS, [""])]

  /** The RSS search fetches one page, the one for the empty search string, and returns its items
      sorted by seeders, or the exception that page raised. */
  lemma RssSearchIsOnePage(env: Env, s: Settings)
    ensures SearchRequests(env, s, RssQuery) == [SearchUrl(env.quote, "")]
    ensures var page := TermItems(env.fetch(SearchUrl(env.quote, "")), s, env.tryInt);
            && (page.Raise? ==> SearchResults(env, s, RssQuery) == page)
            && (page.Ok? ==> SearchResults(env, s, RssQuery) == Ok(SortBySeeders(page.value)))
  {
    assert RssQuery[..0] == [];
    assert [""][..0] == [];
    var page := TermItems(env.fetch(SearchUrl(env.quote, "")), s, env.tryInt);
    if page.Ok? {
      assert [] + page.value == page.value;
      assert [] + SortBySeeders(page.value) == SortBySeeders(page.value);
    }
  }

  /** `SceneTimeCache._getRSSData`: the `entries` of the RSS feed are one RSS search. */
  method GetRssData(env: Env, s: Settings) returns (entries: Outcome<seq<Item>>, requested: seq<string>)
    ensures !LoginVerdict(env.loginResponse) ==> entries == Ok([]) && requested == []
    ensures LoginVerdict(env.loginResponse) ==> requested == [SearchUrl(env.quote, "")]
    ensures var page := TermItems(env.fetch(SearchUrl(env.quote, "")), s, env.tryInt);
            LoginVerdict(env.loginResponse) ==>
              && (page.Raise? ==> entries == page)
              && (page.Ok? ==> entries == Ok(SortBySeeders(page.value)))
    ensures entries.Ok? ==> NonIncreasing(entries.value)
  {
    RssSearchIsOnePage(env, s);
    entries, requested := Search(env, s, RssQuery);
  }
}
