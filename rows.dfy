/** One row of the `torrenttable` results: the label lookup, the torrent id and download URL,
    and the fields read from the cells, in the order the provider evaluates them. */
module Rows {
  import opened Wrappers
  import opened Text
  import opened SizeParser

  /** An `<a>` element: its `href` attribute, if any, and its stripped text. */
  datatype Link = Link(href: Option<string>, text: string)

  /** A `<td>` cell: its stripped text and the first `<a>` inside it, if any. */
  datatype Cell = Cell(text: string, link: Option<Link>)

  /** The `<td>` cells of a `<tr>`. */
  type Row = seq<Cell>

  /** The tuple `(title, download_url, size, seeders, leechers)`. */
  datatype Item = Item(title: string, downloadUrl: string, size: int, seeders: int, leechers: int)

  const DetailsMarker := "details.php?id="
  const DownloadBase := "https://www.scenetime.com/download.php/"

  /** The header labels: the text of each cell of the first row. */
  function Labels(header: Row): (labels: seq<string>)
    ensures |labels| == |header|
    ensures forall i :: 0 <= i < |header| ==> labels[i] == header[i].text
  {
    seq(|header|, i requires 0 <= i < |header| => header[i].text)
  }

  /** `labels.index(x)`: the first position of x, or None where Python raises ValueError. */
  function IndexOf(labels: seq<string>, x: string): (r: Option<nat>)
    ensures r.None? <==> x !in labels
    ensures r.Some? ==> r.value < |labels| && labels[r.value] == x && x !in labels[..r.value]
  {
    if labels == [] then None
    else if labels[0] == x then Some(0)
    else match IndexOf(labels[1..], x)
      case None => None
      case Some(i) => assert labels[..i + 1] == [labels[0]] + labels[1..][..i]; Some(i + 1)
  }

  /** `cells[labels.index(name)]`: ValueError when the label is missing, IndexError when the
      row is shorter than the label's position. */
  function Column(labels: seq<string>, cells: Row, name: string): (r: Outcome<Cell>)
    ensures r == Raise(ValueError) <==> name !in labels
    ensures r == Raise(IndexError) <==> exists i :: FirstAt(labels, name, i) && i >= |cells|
    ensures r.Raise? ==> r.error == ValueError || r.error == IndexError
    ensures r.Ok? ==> exists i :: FirstAt(labels, name, i) && i < |cells| && r.value == cells[i]
  {
    match IndexOf(labels, name)
    case None => Raise(ValueError)
    case Some(i) =>
      assert FirstAt(labels, name, i);
      if i < |cells| then Ok(cells[i]) else Raise(IndexError)
  }

  /** i is the first position of x in labels. */
  ghost predicate FirstAt(labels: seq<string>, x: string, i: int) {
    0 <= i < |labels| && labels[i] == x && x !in labels[..i]
  }

  /** `href.replace('details.php?id=', '').split('&')[0]`. */
  function TorrentId(href: string): (id: string)
    ensures '&' !in id
  {
    BeforeFirst(RemoveAll(href, DetailsMarker), '&')
  }

  /** A detail link `details.php?id=<id>`, optionally followed by `&`-separated parameters, gives
      back its id, provided the id holds no `&` and no copy of the marker. */
  lemma TorrentIdOfDetailsLink(id: string, rest: string)
    requires '&' !in id && !Occurs(id, DetailsMarker)
    requires rest == [] || rest[0] == '&'
    ensures TorrentId(DetailsMarker + id + rest) == id
  {
    var p := DetailsMarker;
    var s := p + (id + rest);
    assert s[..|p|] == p && s[|p|..] == id + rest;
    assert p + id + rest == s;
    var removed := RemoveAll(id + rest, p);
    if rest == [] {
      assert id + rest == id;
      RemoveAllAbsent(id, p);
    } else {
      RemoveAllKeepsHead(id, rest, p);
      assert removed == id + RemoveAll(rest, p);
      assert RemoveAll(rest, p) != [] && RemoveAll(rest, p)[0] == '&' by {
        if |rest| >= |p| {
          assert rest[..|p|][0] != p[0];
        }
      }
      assert removed[|id|] == '&';
    }
    assert id <= removed;
  }

  /** `'https://www.scenetime.com/download.php/%s/%s' % (id, '%s.torrent' % title.replace(' ', '.'))`. */
  function DownloadUrl(id: string, title: string): (url: string)
    ensures |url| == |DownloadBase| + |id| + |title| + 9
    ensures url[..|DownloadBase|] == DownloadBase && url[|DownloadBase|..|DownloadBase| + |id|] == id
    ensures forall i :: |DownloadBase| + |id| < i < |url| ==> url[i] != ' '
    ensures url[|DownloadBase| + |id|] == '/' && url[|url| - 8..] == ".torrent"
    ensures forall i :: 0 <= i < |title| ==>
              url[|DownloadBase| + |id| + 1 + i] == if title[i] == ' ' then '.' else title[i]
  {
    var dotted := ReplaceChar(title, ' ', '.');
    var file := dotted + ".torrent";
    assert forall i :: 0 <= i < |file| ==> file[i] != ' ';
    var head := DownloadBase + id + "/";
    var url := head + file;
    assert url[|url| - 8..] == file[|dotted|..] == ".torrent";
    assert forall i :: 0 <= i < |title| ==> url[|head| + i] == dotted[i];
    url
  }

  /** A title without spaces is used verbatim as the file name. */
  lemma DownloadUrlOfPlainTitle(id: string, title: string)
    requires ' ' !in title
    ensures DownloadUrl(id, title) == DownloadBase + id + "/" + title + ".torrent"
  {
    assert ReplaceChar(title, ' ', '.') == title;
  }

  /** The try-block of the row loop. Each step raises what Python raises at that point: a missing
      label ValueError, a short row IndexError, a Name cell without `<a>` TypeError (`None['href']`),
      a link without `href` KeyError; the size text may raise as `ConvertSize` says. `tryInt` is
      `try_int`, which never raises. */
  function ExtractRow(labels: seq<string>, cells: Row, tryInt: string -> int): (r: Outcome<Item>)
    ensures r.Ok? ==> |r.value.downloadUrl| > |DownloadBase|
  {
    var name :- Column(labels, cells, "Name");
    var link :- if name.link.Some? then Ok(name.link.value) else Raise(TypeError);
    var href :- if link.href.Some? then Ok(link.href.value) else Raise(KeyError);
    var id := TorrentId(href);
    var title := link.text;
    var url := DownloadUrl(id, title);
    var seedersCell :- Column(labels, cells, "Seeders");
    var seeders := tryInt(seedersCell.text);
    var leechersCell :- Column(labels, cells, "Leechers");
    var leechers := tryInt(leechersCell.text);
    var sizeCell :- Column(labels, cells, "Size");
    var size :- ConvertSize(sizeCell.text);
    Ok(Item(title, url, size, seeders, leechers))
  }

  /** What each exception of the row body stands for. */
  lemma ExtractRowErrors(labels: seq<string>, cells: Row, tryInt: string -> int)
    ensures var r := ExtractRow(labels, cells, tryInt);
      IndexOf(labels, "Name").None? ==> r == Raise(ValueError)
    ensures var r := ExtractRow(labels, cells, tryInt);
      IndexOf(labels, "Name").Some? && IndexOf(labels, "Name").value >= |cells| ==> r == Raise(IndexError)
    ensures var r := ExtractRow(labels, cells, tryInt);
      NameLink(labels, cells) == Ok(None) ==> r == Raise(TypeError)
    ensures var r, l := ExtractRow(labels, cells, tryInt), NameLink(labels, cells);
      (l.Ok? && l.value.Some? && l.value.value.href.None?) ==> r == Raise(KeyError)
    ensures var r := ExtractRow(labels, cells, tryInt);
      HrefRead(labels, cells) && "Seeders" !in labels ==> r == Raise(ValueError)
    ensures var r := ExtractRow(labels, cells, tryInt);
      HrefRead(labels, cells) && ColumnTooFar(labels, cells, "Seeders") ==> r == Raise(IndexError)
    ensures var r := ExtractRow(labels, cells, tryInt);
      SeedersRead(labels, cells) && "Leechers" !in labels ==> r == Raise(ValueError)
    ensures var r := ExtractRow(labels, cells, tryInt);
      SeedersRead(labels, cells) && ColumnTooFar(labels, cells, "Leechers") ==> r == Raise(IndexError)
    ensures var r := ExtractRow(labels, cells, tryInt);
      LeechersRead(labels, cells) && "Size" !in labels ==> r == Raise(ValueError)
    ensures var r := ExtractRow(labels, cells, tryInt);
      LeechersRead(labels, cells) && ColumnTooFar(labels, cells, "Size") ==> r == Raise(IndexError)
    ensures var r, size := ExtractRow(labels, cells, tryInt), Column(labels, cells, "Size");
      LeechersRead(labels, cells) && size.Ok? && ConvertSize(size.value.text).Raise? ==>
        r == Raise(ConvertSize(size.value.text).error)
  {
  }

  /** The Name cell has a link with an `href`, so the lookups after it are reached. */
  predicate HrefRead(labels: seq<string>, cells: Row) {
    var l := NameLink(labels, cells);
    l.Ok? && l.value.Some? && l.value.value.href.Some?
  }

  /** The lookups up to the Seeders cell went through. */
  predicate SeedersRead(labels: seq<string>, cells: Row) {
    HrefRead(labels, cells) && Column(labels, cells, "Seeders").Ok?
  }

  /** The lookups up to the Leechers cell went through. */
  predicate LeechersRead(labels: seq<string>, cells: Row) {
    SeedersRead(labels, cells) && Column(labels, cells, "Leechers").Ok?
  }

  /** The label is there, but the row is shorter than its position. */
  predicate ColumnTooFar(labels: seq<string>, cells: Row, name: string) {
    IndexOf(labels, name).Some? && IndexOf(labels, name).value >= |cells|
  }

  /** Where each field of an item read from a row comes from. */
  lemma ExtractRowFields(labels: seq<string>, cells: Row, tryInt: string -> int)
    requires ExtractRow(labels, cells, tryInt).Ok?
    ensures var item, l := ExtractRow(labels, cells, tryInt).value, NameLink(labels, cells);
      && l.Ok? && l.value.Some? && l.value.value.href.Some?
      && item.title == l.value.value.text
      && item.downloadUrl == DownloadUrl(TorrentId(l.value.value.href.value), item.title)
    ensures var item := ExtractRow(labels, cells, tryInt).value;
      && Column(labels, cells, "Seeders").Ok? && Column(labels, cells, "Leechers").Ok?
      && Column(labels, cells, "Size").Ok?
      && item.seeders == tryInt(Column(labels, cells, "Seeders").value.text)
      && item.leechers == tryInt(Column(labels, cells, "Leechers").value.text)
      && ConvertSize(Column(labels, cells, "Size").value.text) == Ok(item.size)
  {
  }

  /** `cells[labels.index('Name')].find('a')`. */
  function NameLink(labels: seq<string>, cells: Row): (r: Outcome<Option<Link>>)
    ensures r.Raise? <==> "Name" !in labels || IndexOf(labels, "Name").value >= |cells|
    ensures r.Raise? ==> r.error == ValueError || r.error == IndexError
  {
    var name :- Column(labels, cells, "Name");
    Ok(name.link)
  }
}
