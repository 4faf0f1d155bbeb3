/** The row loop of the script: for every uploaded row, resolve the id,
    build the links, verify each site under its flag, and append the record.
    Besides the records it returns the URLs it fetched, in order, so that
    what the loop sends over the network can be stated. */
module Pipeline {
  import opened Wrappers
  import opened MovieSearch
  import opened Links
  import opened Verification
  import opened Toggles
  import opened Records
  import opened Columns

  /** The URLs the first `n` iterations of the verification loop fetch: the
      loop visits the URL map in site order and fetches only when the site's
      flag is set. */
  function RowRequests(urls: map<Site, string>, t: Toggles, n: nat): seq<string>
    requires n <= |AllSites|
    requires forall s: Site :: s in urls
  {
    if n == 0 then []
    else
      var site := AllSites[n - 1];
      RowRequests(urls, t, n - 1) + (if Execute(t, site) then [urls[site]] else [])
  }

  /** The URLs fetched while processing `rows`, row after row. */
  function Requests(rows: seq<Row>, t: Toggles, search: Search): seq<string> {
    if rows == [] then []
    else Requests(rows[..|rows| - 1], t, search) + RowRequests(Urls(RowId(rows[|rows| - 1], search)), t, |AllSites|)
  }

  /** The list the row loop appends to: one entry per row, in row order. */
  function MapRows<T>(rows: seq<Row>, f: Row -> T): seq<T> {
    if rows == [] then []
    else MapRows(rows[..|rows| - 1], f) + [f(rows[|rows| - 1])]
  }

  /** Each position of the list holds the entry of the row at that position. */
  lemma {:induction false} MapRowsAt<T>(rows: seq<Row>, f: Row -> T)
    ensures |MapRows(rows, f)| == |rows|
    ensures forall i :: 0 <= i < |rows| ==> MapRows(rows, f)[i] == f(rows[i])
  {
    if rows != [] {
      var init := rows[..|rows| - 1];
      MapRowsAt(init, f);
      forall i | 0 <= i < |init| ensures rows[i] == init[i] { }
    }
  }

  /** The verification loop fetches the URL of every enabled site and of no
      other site, both directions. */
  lemma {:induction false} RowRequestsAreEnabledUrls(urls: map<Site, string>, t: Toggles, n: nat, url: string)
    requires n <= |AllSites|
    requires forall s: Site :: s in urls
    ensures url in RowRequests(urls, t, n) <==>
      exists k :: 0 <= k < n && Execute(t, AllSites[k]) && url == urls[AllSites[k]]
  {
    if n > 0 {
      RowRequestsAreEnabledUrls(urls, t, n - 1, url);
      var site := AllSites[n - 1];
      if url in RowRequests(urls, t, n) && url !in RowRequests(urls, t, n - 1) {
        assert Execute(t, site) && url == urls[site];
      }
      if exists k :: 0 <= k < n && Execute(t, AllSites[k]) && url == urls[AllSites[k]] {
        var k :| 0 <= k < n && Execute(t, AllSites[k]) && url == urls[AllSites[k]];
        if k == n - 1 {
          assert url in RowRequests(urls, t, n);
        }
      }
    }
  }

  /** At most one fetch per site and row, and none when no site is enabled. */
  lemma {:induction false} RowRequestsBound(urls: map<Site, string>, t: Toggles, n: nat)
    requires n <= |AllSites|
    requires forall s: Site :: s in urls
    ensures |RowRequests(urls, t, n)| <= n
    ensures (forall i :: 0 <= i < |t| ==> !t[i].1) ==> RowRequests(urls, t, n) == []
  {
    if n > 0 {
      RowRequestsBound(urls, t, n - 1);
    }
  }

  /** With every check box cleared the whole run fetches nothing. */
  lemma {:induction false} NothingEnabledNothingFetched(rows: seq<Row>, t: Toggles, search: Search)
    requires forall i :: 0 <= i < |t| ==> !t[i].1
    ensures Requests(rows, t, search) == []
  {
    if rows != [] {
      NothingEnabledNothingFetched(rows[..|rows| - 1], t, search);
      RowRequestsBound(Urls(RowId(rows[|rows| - 1], search)), t, |AllSites|);
    }
  }

  /** The whole run fetches at most six URLs per row. */
  lemma {:induction false} RequestsBound(rows: seq<Row>, t: Toggles, search: Search)
    ensures |Requests(rows, t, search)| <= |AllSites| * |rows|
  {
    if rows != [] {
      RequestsBound(rows[..|rows| - 1], t, search);
      RowRequestsBound(Urls(RowId(rows[|rows| - 1], search)), t, |AllSites|);
    }
  }

  /** Lines 153-157: verify every URL of the map in site order under its
      site's flag; returns `imdb_titles` and the URLs it fetched. */
  method VerifySites(urls: map<Site, string>, t: Toggles, web: Web)
    returns (imdbTitles: map<Site, string>, fetched: seq<string>)
    requires forall s: Site :: s in urls
    ensures imdbTitles == SiteTitles(urls, t, web, |AllSites|)
    ensures fetched == RowRequests(urls, t, |AllSites|)
  {
    imdbTitles := map[];
    fetched := [];
    for j := 0 to |AllSites|
      invariant imdbTitles == SiteTitles(urls, t, web, j)
      invariant fetched == RowRequests(urls, t, j)
    {
      var site := AllSites[j];
      var url := urls[site];
      var execute := Execute(t, site);
      if execute {
        fetched := fetched + [url];
      }
      var title := GetTitle(url, execute, web);
      imdbTitles := imdbTitles[site := title];
    }
  }

  /** Lines 158-167: the four fixed keys, then each enabled site's URL and
      title, in toggle order. */
  method BuildRecord(row: Row, imdbId: Option<string>, t: Toggles, urls: map<Site, string>, imdbTitles: map<Site, string>)
    returns (resultDict: Record)
    ensures resultDict == AddSites(BaseRecord(row, imdbId), t, urls, imdbTitles)
  {
    resultDict := map[
      MovieName := Text(row.name),
      ReleaseYear := Number(row.year),
      Imdb := OptionCell(Hyperlink(imdbId)),
      ImdbId := OptionCell(imdbId)];
    for j := 0 to |t|
      invariant resultDict == AddSites(BaseRecord(row, imdbId), t[..j], urls, imdbTitles)
    {
      var (site, execute) := t[j];
      assert t[..j + 1][..j] == t[..j];
      if execute {
        resultDict := resultDict[SiteUrl(site) := Text(GetOr(urls, site, NotFound))];
        resultDict := resultDict[SiteTitle(site) := Text(GetOr(imdbTitles, site, NotFound))];
      }
    }
    assert t[..|t|] == t;
  }

  /** Lines 143-170: one record per row, appended in row order. */
  method ProcessRows(rows: seq<Row>, t: Toggles, search: Search, web: Web)
    returns (results: seq<Record>, requested: seq<string>)
    ensures |results| == |rows|
    ensures forall i :: 0 <= i < |rows| ==> results[i] == RowRecord(rows[i], t, search, web)
    ensures requested == Requests(rows, t, search)
  {
    results := [];
    requested := [];
    for k := 0 to |rows|
      invariant results == MapRows(rows[..k], row => RowRecord(row, t, search, web))
      invariant requested == Requests(rows[..k], t, search)
    {
      var imdbId := SearchMovie(search(rows[k].name), rows[k].year);
      var urls := Urls(imdbId);
      var imdbTitles, fetched := VerifySites(urls, t, web);
      requested := requested + fetched;
      var resultDict := BuildRecord(rows[k], imdbId, t, urls, imdbTitles);
      assert resultDict == RowRecord(rows[k], t, search, web);
      results := results + [resultDict];
      assert rows[..k + 1][..k] == rows[..k];
    }
    assert rows[..|rows|] == rows;
    MapRowsAt(rows, row => RowRecord(row, t, search, web));
  }

  /** Lines 132-176 once a file is uploaded: read the six sidebar check
      boxes into `url_options`, process the rows under them, then select the
      columns of the result table. */
  method RunScript(rows: seq<Row>, checked: seq<bool>, search: Search, web: Web)
    returns (results: seq<Record>, table: Result<seq<seq<Cell>>, seq<Column>>, requested: seq<string>)
    requires |checked| == |AllSites|
    ensures |results| == |rows|
    ensures forall i :: 0 <= i < |rows| ==> results[i] == RowRecord(rows[i], SidebarToggles(checked), search, web)
    ensures requested == Requests(rows, SidebarToggles(checked), search)
    ensures forall i, k :: 0 <= i < |results| && 0 <= k < |AllSites| ==>
      (SiteUrl(AllSites[k]) in results[i] <==> checked[k]) && (SiteTitle(AllSites[k]) in results[i] <==> checked[k])
    ensures forall i, c :: 0 <= i < |results| && c in SelectedColumns(SidebarToggles(checked)) ==> c in results[i]
    ensures table.Ok? <==> |rows| > 0
    ensures table.Ok? ==> table.value == ProjectedRows(results, SelectedColumns(SidebarToggles(checked)))
  {
    var urlOptions := SidebarToggles(checked);
    results, requested := ProcessRows(rows, urlOptions, search, web);
    forall i, k | 0 <= i < |results| && 0 <= k < |AllSites|
      ensures (SiteUrl(AllSites[k]) in results[i] <==> checked[k]) && (SiteTitle(AllSites[k]) in results[i] <==> checked[k])
    {
      RowRecordCheckedSite(rows[i], checked, search, web, k);
    }
    var selectedColumns := SelectedColumns(urlOptions);
    RecordsHoldSelectedColumns(results, rows, urlOptions, search, web);
    ProjectCompleteRecords(results, selectedColumns);
    table := Project(results, selectedColumns);
  }
}
