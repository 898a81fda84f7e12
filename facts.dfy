/** What `SceneTimeProvider.search` promises about the items it returns and the rows it reads. */
module SearchFacts {
  import opened Wrappers
  import opened Text
  import opened Rows
  import opened Ranking
  import opened SceneTime

  /** An item `search` may return: it has a title, meets both thresholds, and its download link is
      built from the torrent id of a Name link. */
  ghost predicate Admissible(item: Item, s: Settings) {
    && item.title != []
    && MeetsThresholds(item, s)
    && exists href :: item.downloadUrl == DownloadUrl(TorrentId(href), item.title)
  }

  /** Appending two outcomes of the row loop: the first exception wins. */
  function Join(x: Outcome<seq<Item>>, y: Outcome<seq<Item>>): Outcome<seq<Item>> {
    var a :- x;
    var b :- y;
    Ok(a + b)
  }

  lemma JoinAssoc(x: Outcome<seq<Item>>, y: Outcome<seq<Item>>, z: Outcome<seq<Item>>)
    ensures Join(Join(x, y), z) == Join(x, Join(y, z))
  {
    if x.Ok? && y.Ok? && z.Ok? {
      AppendAssoc(x.value, y.value, z.value);
    }
  }

  /** A page of one data row yields what that row adds. */
  lemma SingleRowPage(labels: seq<string>, row: Row, s: Settings, tryInt: string -> int)
    ensures PageItems(labels, [row], s, tryInt) == RowItems(labels, row, s, tryInt)
  {
    assert [row][..0] == [];
    var none: seq<Item> := [];
    assert PageItems(labels, [], s, tryInt) == Ok(none);
    var r := RowItems(labels, row, s, tryInt);
    if r.Ok? {
      assert none + r.value == r.value;
    }
  }

  /** A row that adds nothing. */
  lemma RowThatAddsNothing(labels: seq<string>, row: Row, s: Settings, tryInt: string -> int)
    requires RowItems(labels, row, s, tryInt) == Ok([])
    ensures PageItems(labels, [row], s, tryInt) == Ok([])
  {
    assert [row][..0] == [];
    var none: seq<Item> := [];
    assert PageItems(labels, [], s, tryInt) == Ok(none);
    assert none + none == none;
  }

  /** The row loop over two runs of rows is the loop over the first, then over the second. */
  lemma {:induction false} PageAppend(labels: seq<string>, a: seq<Row>, b: seq<Row>, s: Settings, tryInt: string -> int)
    ensures PageItems(labels, a + b, s, tryInt) == Join(PageItems(labels, a, s, tryInt), PageItems(labels, b, s, tryInt))
    decreases |b|
  {
    if b == [] {
      assert a + b == a;
      var x := PageItems(labels, a, s, tryInt);
      if x.Ok? {
        assert x.value + [] == x.value;
      }
    } else {
      var front := b[..|b| - 1];
      assert (a + b)[..|a + b| - 1] == a + front;
      assert (a + b)[|a + b| - 1] == b[|b| - 1];
      PageAppend(labels, a, front, s, tryInt);
      JoinAssoc(PageItems(labels, a, s, tryInt), PageItems(labels, front, s, tryInt),
                RowItems(labels, b[|b| - 1], s, tryInt));
    }
  }

  /** A row whose fields raise a caught exception, whose title is empty or which is below a
      threshold is skipped: the page yields what it would without that row. */
  lemma SkippedRowIsDropped(labels: seq<string>, rows: seq<Row>, i: nat, s: Settings, tryInt: string -> int)
    requires i < |rows| && RowItems(labels, rows[i], s, tryInt) == Ok([])
    ensures PageItems(labels, rows, s, tryInt) == PageItems(labels, rows[..i] + rows[i + 1..], s, tryInt)
  {
    var before, mid, after := rows[..i], [rows[i]], rows[i + 1..];
    RowThatAddsNothing(labels, rows[i], s, tryInt);
    assert rows == before + (mid + after);
    EmptyRunIsDropped(labels, before, mid, after, s, tryInt);
  }

  /** Rows that together add nothing can be left out. */
  lemma EmptyRunIsDropped(labels: seq<string>, a: seq<Row>, mid: seq<Row>, c: seq<Row>, s: Settings, tryInt: string -> int)
    requires PageItems(labels, mid, s, tryInt) == Ok([])
    ensures PageItems(labels, a + (mid + c), s, tryInt) == PageItems(labels, a + c, s, tryInt)
  {
    PageAppend(labels, a, mid + c, s, tryInt);
    PageAppend(labels, mid, c, s, tryInt);
    var y := PageItems(labels, c, s, tryInt);
    if y.Ok? {
      assert [] + y.value == y.value;
    }
    PageAppend(labels, a, c, s, tryInt);
  }

  /** A row whose body raises IndexError (a row shorter than a label's position) or OverflowError
      (an infinite size), which the `except` clause does not name: once the rows before it went
      through, the whole page raises that exception. */
  lemma UncaughtRowEscapes(labels: seq<string>, rows: seq<Row>, i: nat, s: Settings, tryInt: string -> int)
    requires i < |rows| && PageItems(labels, rows[..i], s, tryInt).Ok?
    requires ExtractRow(labels, rows[i], tryInt) == Raise(IndexError)
          || ExtractRow(labels, rows[i], tryInt) == Raise(OverflowError)
    ensures PageItems(labels, rows, s, tryInt) == Raise(ExtractRow(labels, rows[i], tryInt).error)
  {
    PageStep(labels, rows, i, s, tryInt);
    PageRaiseSticks(labels, rows, i + 1, s, tryInt);
  }

  /** A row whose body raises ValueError (a missing label, a NaN size), TypeError (no link) or
      KeyError (no `href`) is skipped: the page yields what it would without that row. */
  lemma CaughtRowIsSkipped(labels: seq<string>, rows: seq<Row>, i: nat, s: Settings, tryInt: string -> int)
    requires i < |rows|
    requires ExtractRow(labels, rows[i], tryInt) == Raise(ValueError)
          || ExtractRow(labels, rows[i], tryInt) == Raise(TypeError)
          || ExtractRow(labels, rows[i], tryInt) == Raise(KeyError)
    ensures PageItems(labels, rows, s, tryInt) == PageItems(labels, rows[..i] + rows[i + 1..], s, tryInt)
  {
    SkippedRowIsDropped(labels, rows, i, s, tryInt);
  }

  /** Whether a row whose fields were read is kept depends on its title and its seeders and
      leechers only, never on its size, the -1 sentinel included. */
  lemma EmissionIgnoresSize(labels: seq<string>, row: Row, s: Settings, tryInt: string -> int)
    requires ExtractRow(labels, row, tryInt).Ok?
    ensures var item := ExtractRow(labels, row, tryInt).value;
            && (item.title != [] && MeetsThresholds(item, s) ==> RowItems(labels, row, s, tryInt) == Ok([item]))
            && (!(item.title != [] && MeetsThresholds(item, s)) ==> RowItems(labels, row, s, tryInt) == Ok([]))
  {
    ExtractRowFields(labels, row, tryInt);
    var item := ExtractRow(labels, row, tryInt).value;
    assert |item.downloadUrl| >= |DownloadBase|;
  }

  /** An item read from a row links to the download page of the torrent id of its Name link. */
  lemma ExtractedLink(labels: seq<string>, row: Row, tryInt: string -> int)
    requires ExtractRow(labels, row, tryInt).Ok?
    ensures var item := ExtractRow(labels, row, tryInt).value;
            exists href :: item.downloadUrl == DownloadUrl(TorrentId(href), item.title)
  {
    ExtractRowFields(labels, row, tryInt);
    var href := NameLink(labels, row).value.value.href.value;
    assert ExtractRow(labels, row, tryInt).value.downloadUrl == DownloadUrl(TorrentId(href), ExtractRow(labels, row, tryInt).value.title);
  }

  lemma RowSound(labels: seq<string>, row: Row, s: Settings, tryInt: string -> int)
    ensures var r := RowItems(labels, row, s, tryInt);
            r.Ok? ==> forall x :: x in r.value ==> Admissible(x, s)
  {
    var e := ExtractRow(labels, row, tryInt);
    if e.Ok? {
      ExtractedLink(labels, row, tryInt);
      EmissionIgnoresSize(labels, row, s, tryInt);
      if e.value.title != [] && MeetsThresholds(e.value, s) {
        assert forall x :: x in [e.value] ==> x == e.value;
      }
    }
  }

  lemma {:induction false} PageSound(labels: seq<string>, rows: seq<Row>, s: Settings, tryInt: string -> int)
    ensures var r := PageItems(labels, rows, s, tryInt);
            r.Ok? ==> forall x :: x in r.value ==> Admissible(x, s)
    decreases |rows|
  {
    if rows != [] {
      PageSound(labels, rows[..|rows| - 1], s, tryInt);
      RowSound(labels, rows[|rows| - 1], s, tryInt);
    }
  }

  lemma {:induction false} ModeSound(env: Env, s: Settings, terms: seq<string>)
    ensures var r := ModeItems(env, s, terms);
            r.Ok? ==> forall x :: x in r.value ==> Admissible(x, s)
    decreases |terms|
  {
    if terms != [] {
      ModeSound(env, s, terms[..|terms| - 1]);
      var page := env.fetch(SearchUrl(env.quote, terms[|terms| - 1]));
      var rows := if page.Html? && page.torrentTable.Some? then page.torrentTable.value else [];
      if |rows| >= 2 {
        PageSound(Labels(rows[0]), rows[1..], s, env.tryInt);
      }
    }
  }

  /** Every item `search` returns has a title, meets both thresholds and links to the download
      page of the torrent id of its Name link. */
  lemma {:induction false} SearchSound(env: Env, s: Settings, params: seq<Query>)
    ensures var r := SearchResults(env, s, params);
            r.Ok? ==> forall x :: x in r.value ==> Admissible(x, s)
    decreases |params|
  {
    if params != [] {
      SearchSound(env, s, params[..|params| - 1]);
      var block := ModeItems(env, s, params[|params| - 1].terms);
      ModeSound(env, s, params[|params| - 1].terms);
      if block.Ok? {
        forall x | x in SortBySeeders(block.value) ensures x in block.value {
          assert x in multiset(SortBySeeders(block.value));
        }
      }
    }
  }

  /** A search string whose page has no data, no torrent table or fewer than two rows adds
      nothing; its page is still requested and the next search string follows. */
  lemma PageWithoutTorrents(env: Env, s: Settings, terms: seq<string>, t: string)
    requires var page := env.fetch(SearchUrl(env.quote, t));
             page.NoData? || page.torrentTable.None? || |page.torrentTable.value| < 2
    ensures ModeItems(env, s, terms + [t]) == ModeItems(env, s, terms)
    ensures ModeItems(env, s, terms).Ok? ==>
              ModeRequests(env, s, terms + [t]) == ModeRequests(env, s, terms) + [SearchUrl(env.quote, t)]
  {
    assert (terms + [t])[..|terms|] == terms;
    var r := ModeItems(env, s, terms);
    if r.Ok? {
      assert r.value + [] == r.value;
    }
  }
}
