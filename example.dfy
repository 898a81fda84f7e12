/** A worked example: one results page with one data row. */
module SearchExample {
  import opened Wrappers
  import opened Text
  import opened SizeParser
  import opened Rows
  import opened SceneTime
  import opened SearchFacts

  const ExampleTitle := "Example.Release.Title"
  const ExampleLabels := ["Name", "Size", "Seeders", "Leechers"]
  const ExampleRow := [Cell(ExampleTitle, Some(Link(Some("details.php?id=123"), ExampleTitle))),
                       Cell("1.46 GB", None), Cell("120", None), Cell("3", None)]
  const ExampleItem := Item(ExampleTitle, DownloadBase + "123" + "/" + ExampleTitle + ".torrent", 1567663063, 120, 3)

  lemma ExampleColumns()
    ensures IndexOf(ExampleLabels, "Name") == Some(0)
    ensures IndexOf(ExampleLabels, "Size") == Some(1)
    ensures IndexOf(ExampleLabels, "Seeders") == Some(2)
    ensures IndexOf(ExampleLabels, "Leechers") == Some(3)
  {
    assert ExampleLabels[0] == "Name";
    assert ExampleLabels[1..] == ["Size", "Seeders", "Leechers"];
  }

  lemma ExampleLink()
    ensures DownloadUrl(TorrentId("details.php?id=123"), ExampleTitle) == ExampleItem.downloadUrl
  {
    assert "details.php?id=123" == DetailsMarker + "123" + "";
    assert !Occurs("123", DetailsMarker) by {
      forall i ensures !OccursAt("123", DetailsMarker, i) {
        assert |DetailsMarker| > |"123"|;
      }
    }
    TorrentIdOfDetailsLink("123", "");
    assert ' ' !in ExampleTitle;
    DownloadUrlOfPlainTitle("123", ExampleTitle);
  }

  /** The row is read as one item of 1.46 GB, truncated to bytes, with 120 seeders and 3 leechers. */
  lemma ExampleExtraction(tryInt: string -> int)
    requires tryInt("120") == 120 && tryInt("3") == 3
    ensures ExtractRow(ExampleLabels, ExampleRow, tryInt) == Ok(ExampleItem)
  {
    ExampleColumns();
    ExampleLink();
    SizeOfExample();
  }

  /** With both thresholds at 0 the page yields exactly that item. */
  lemma ExamplePage(tryInt: string -> int)
    requires tryInt("120") == 120 && tryInt("3") == 3
    ensures PageItems(ExampleLabels, [ExampleRow], Settings(Some(0), Some(0)), tryInt) == Ok([ExampleItem])
  {
    ExampleExtraction(tryInt);
    EmissionIgnoresSize(ExampleLabels, ExampleRow, Settings(Some(0), Some(0)), tryInt);
    SingleRowPage(ExampleLabels, ExampleRow, Settings(Some(0), Some(0)), tryInt);
  }

  /** Requiring at least 5 leechers drops the row, which has 3. */
  lemma ExamplePageBelowThreshold(tryInt: string -> int)
    requires tryInt("120") == 120 && tryInt("3") == 3
    ensures PageItems(ExampleLabels, [ExampleRow], Settings(Some(0), Some(5)), tryInt) == Ok([])
  {
    ExampleExtraction(tryInt);
    EmissionIgnoresSize(ExampleLabels, ExampleRow, Settings(Some(0), Some(5)), tryInt);
    SingleRowPage(ExampleLabels, ExampleRow, Settings(Some(0), Some(5)), tryInt);
  }

  /** Without a Seeders label the lookup at that column raises ValueError, which is caught: the row
      is skipped. */
  lemma ExampleWithoutSeeders(tryInt: string -> int)
    ensures ExtractRow(["Name", "Size", "Leechers"], ExampleRow, tryInt) == Raise(ValueError)
    ensures RowItems(["Name", "Size", "Leechers"], ExampleRow, Settings(None, None), tryInt) == Ok([])
  {
    var labels := ["Name", "Size", "Leechers"];
    assert labels[0] == "Name";
    assert HrefRead(labels, ExampleRow);
    assert "Seeders" !in labels;
    ExtractRowErrors(labels, ExampleRow, tryInt);
  }

  /** A row of only two cells is shorter than the Seeders position, 2: IndexError, which is not
      caught, leaves the page. */
  lemma ExampleShortRow(s: Settings, tryInt: string -> int)
    ensures PageItems(ExampleLabels, [ExampleRow[..2]], s, tryInt) == Raise(IndexError)
  {
    var row := ExampleRow[..2];
    ExampleColumns();
    assert HrefRead(ExampleLabels, row);
    assert ColumnTooFar(ExampleLabels, row, "Seeders");
    ExtractRowErrors(ExampleLabels, row, tryInt);
    UncaughtRowEscapes(ExampleLabels, [row], 0, s, tryInt);
  }

  /** The size "inf KB" makes `long()` raise OverflowError, which leaves the page. */
  lemma ExampleInfiniteSize(s: Settings, tryInt: string -> int)
    ensures PageItems(ExampleLabels, [ExampleRow[1 := Cell("inf KB", None)]], s, tryInt) == Raise(OverflowError)
  {
    var row := ExampleRow[1 := Cell("inf KB", None)];
    ExampleColumns();
    assert LeechersRead(ExampleLabels, row);
    assert Column(ExampleLabels, row, "Size") == Ok(Cell("inf KB", None));
    InfiniteKilobytes();
    ExtractRowErrors(ExampleLabels, row, tryInt);
    UncaughtRowEscapes(ExampleLabels, [row], 0, s, tryInt);
  }

  lemma InfiniteKilobytes()
    ensures ConvertSize("inf KB") == Raise(OverflowError)
  {
    var size := "inf KB";
    assert Suffix(size) == "KB" && Prefix(size) == "inf" + " ";
    assert Upper("KB") == UnitName(1);
    StripTrailing("inf", " ");
    assert Lower("inf") == "inf";
    assert ParseFloat("inf") == Some(Infinity(false));
    SizeOfNonFinite(size, 1);
  }
}
