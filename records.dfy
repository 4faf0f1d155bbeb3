/** One output record per input row: the dictionary `result_dict` built in
    the row loop, and the facts about its keys and values. */
module Records {
  import opened Wrappers
  import opened MovieSearch
  import opened Links
  import opened Verification
  import opened Toggles

  /** A row of the uploaded table: `Movie Name` and `Release Year`. */
  datatype Row = Row(name: string, year: int)

  /** A value in a record or in the projected table: text, the integer year,
      Python's `None`, or the `NaN` that pandas puts where a record lacks a
      column. */
  datatype Cell = Text(text: string) | Number(value: int) | NoneValue | Missing

  /** A key of `result_dict`. The dictionary is keyed by the header text
      `Name()`; `ColumnNameInjective` shows that no two keys share a text. */
  datatype Column = MovieName | ReleaseYear | Imdb | ImdbId | SiteUrl(site: Site) | SiteTitle(site: Site)
  {
    function Name(): string {
      match this
      case MovieName => "Movie Name"
      case ReleaseYear => "Release Year"
      case Imdb => "IMDb"
      case ImdbId => "IMDb ID"
      case SiteUrl(s) => s.Name()
      case SiteTitle(s) => s.Name() + " Title"
    }
  }

  type Record = map<Column, Cell>

  /** The search service as seen by the script: the answer for each title. */
  type Search = string -> seq<SearchResult>

  const FixedColumns: seq<Column> := [MovieName, ReleaseYear, Imdb, ImdbId]

  lemma SiteNameLength(s: Site)
    ensures |s.Name()| == 9 || |s.Name()| == 16 || |s.Name()| == 24
  {
  }

  /** Distinct columns have distinct header texts: the fixed names, the site
      names and the title names differ in length, and within each group the
      site names are distinct. */
  lemma ColumnNameInjective(c: Column, d: Column)
    requires c.Name() == d.Name()
    ensures c == d
  {
    match c {
      case SiteUrl(s) =>
        SiteNameLength(s);
        match d {
          case SiteUrl(u) => SiteNameInjective(s, u);
          case SiteTitle(u) => SiteNameLength(u);
          case _ =>
        }
      case SiteTitle(s) =>
        SiteNameLength(s);
        match d {
          case SiteUrl(u) => SiteNameLength(u);
          case SiteTitle(u) =>
            assert s.Name() == c.Name()[..|s.Name()|];
            assert u.Name() == d.Name()[..|u.Name()|];
            SiteNameInjective(s, u);
          case _ =>
        }
      case _ =>
        match d {
          case SiteUrl(u) => SiteNameLength(u);
          case SiteTitle(u) => SiteNameLength(u);
          case _ =>
        }
    }
  }

  function OptionCell(o: Option<string>): Cell {
    match o
    case Some(s) => Text(s)
    case None => NoneValue
  }

  function GetOr(m: map<Site, string>, key: Site, default: string): string {
    if key in m then m[key] else default
  }

  /** The four keys every record starts with. */
  function BaseRecord(row: Row, id: Option<string>): Record {
    map[MovieName := Text(row.name), ReleaseYear := Number(row.year),
        Imdb := OptionCell(Hyperlink(id)), ImdbId := OptionCell(id)]
  }

  /** `imdb_titles` after the verification loop has visited the first `n`
      sites of the URL map: each visited site's URL verified under that
      site's flag. */
  function SiteTitles(urls: map<Site, string>, t: Toggles, web: Web, n: nat): map<Site, string>
    requires n <= |AllSites|
    requires forall s: Site :: s in urls
  {
    if n == 0 then map[]
    else
      var site := AllSites[n - 1];
      SiteTitles(urls, t, web, n - 1)[site := GetTitle(urls[site], Execute(t, site), web)]
  }

  /** After the whole loop every site has its verification result. */
  lemma {:induction false} SiteTitlesComplete(urls: map<Site, string>, t: Toggles, web: Web, n: nat)
    requires n <= |AllSites|
    requires forall s: Site :: s in urls
    ensures forall k :: 0 <= k < n ==>
      AllSites[k] in SiteTitles(urls, t, web, n) &&
      SiteTitles(urls, t, web, n)[AllSites[k]] == GetTitle(urls[AllSites[k]], Execute(t, AllSites[k]), web)
    ensures forall s :: s in SiteTitles(urls, t, web, n) ==> s in AllSites[..n]
  {
    if n > 0 {
      SiteTitlesComplete(urls, t, web, n - 1);
      AllSitesComplete(VidsrcTo);
    }
  }

  /** The loop over `url_options`, for its first `|t|` entries: each enabled
      site adds its URL and its title. */
  function AddSites(rec: Record, t: Toggles, urls: map<Site, string>, titles: map<Site, string>): Record {
    if t == [] then rec
    else
      var r := AddSites(rec, t[..|t| - 1], urls, titles);
      var site := t[|t| - 1].0;
      if t[|t| - 1].1 then
        r[SiteUrl(site) := Text(GetOr(urls, site, NotFound))][SiteTitle(site) := Text(GetOr(titles, site, NotFound))]
      else r
  }

  /** The id the row's search resolves to. */
  function RowId(row: Row, search: Search): Option<string> {
    SearchMovie(search(row.name), row.year)
  }

  /** The record the loop body builds for one row. */
  function RowRecord(row: Row, t: Toggles, search: Search, web: Web): Record {
    var id := RowId(row, search);
    var urls := Urls(id);
    AddSites(BaseRecord(row, id), t, urls, SiteTitles(urls, t, web, |AllSites|))
  }

  /** The keys the loop over `url_options` leaves: those it started with,
      every enabled site's URL column and every enabled site's title column. */
  lemma {:induction false} AddSitesKeys(rec: Record, t: Toggles, urls: map<Site, string>, titles: map<Site, string>)
    ensures AddSites(rec, t, urls, titles).Keys ==
      rec.Keys + (set s | s in Enabled(t) :: SiteUrl(s)) + (set s | s in Enabled(t) :: SiteTitle(s))
  {
    if t != [] {
      var init := t[..|t| - 1];
      AddSitesKeys(rec, init, urls, titles);
      assert Enabled(t) == Enabled(init) + (if t[|t| - 1].1 then [t[|t| - 1].0] else []);
    }
  }

  /** A key that is no site column keeps its value through that loop. */
  lemma {:induction false} AddSitesKeeps(rec: Record, t: Toggles, urls: map<Site, string>, titles: map<Site, string>, k: Column)
    requires k in rec && !k.SiteUrl? && !k.SiteTitle?
    ensures k in AddSites(rec, t, urls, titles) && AddSites(rec, t, urls, titles)[k] == rec[k]
  {
    if t != [] {
      AddSitesKeeps(rec, t[..|t| - 1], urls, titles, k);
    }
  }

  /** An enabled site ends up holding its URL, and its title column its
      title. */
  lemma {:induction false} AddSitesWrites(rec: Record, t: Toggles, urls: map<Site, string>, titles: map<Site, string>, s: Site)
    requires s in Enabled(t)
    ensures SiteUrl(s) in AddSites(rec, t, urls, titles) && SiteTitle(s) in AddSites(rec, t, urls, titles)
    ensures AddSites(rec, t, urls, titles)[SiteUrl(s)] == Text(GetOr(urls, s, NotFound))
    ensures AddSites(rec, t, urls, titles)[SiteTitle(s)] == Text(GetOr(titles, s, NotFound))
  {
    var init := t[..|t| - 1];
    var site := t[|t| - 1].0;
    if !(t[|t| - 1].1 && site == s) {
      assert Enabled(t) == Enabled(init) + (if t[|t| - 1].1 then [site] else []);
      assert s in Enabled(init);
      AddSitesWrites(rec, init, urls, titles, s);
    }
  }

  /** A site that is not enabled gets no column from that loop. */
  lemma {:induction false} AddSitesSkips(rec: Record, t: Toggles, urls: map<Site, string>, titles: map<Site, string>, s: Site)
    requires s !in Enabled(t) && SiteUrl(s) !in rec && SiteTitle(s) !in rec
    ensures SiteUrl(s) !in AddSites(rec, t, urls, titles)
    ensures SiteTitle(s) !in AddSites(rec, t, urls, titles)
  {
    if t != [] {
      var init := t[..|t| - 1];
      assert Enabled(t) == Enabled(init) + (if t[|t| - 1].1 then [t[|t| - 1].0] else []);
      AddSitesSkips(rec, init, urls, titles, s);
    }
  }

  /** A record's keys are the four fixed columns, the enabled sites' URL
      columns and the enabled sites' title columns. */
  lemma RowRecordKeys(row: Row, t: Toggles, search: Search, web: Web)
    ensures RowRecord(row, t, search, web).Keys ==
      (set c | c in FixedColumns) + (set s | s in Enabled(t) :: SiteUrl(s)) + (set s | s in Enabled(t) :: SiteTitle(s))
  {
    var id := RowId(row, search);
    var urls := Urls(id);
    AddSitesKeys(BaseRecord(row, id), t, urls, SiteTitles(urls, t, web, |AllSites|));
  }

  /** The fixed columns hold the row's name and year, the IMDb link and the
      id, whatever the toggles. */
  lemma RowRecordFixed(row: Row, t: Toggles, search: Search, web: Web)
    ensures var rec := RowRecord(row, t, search, web);
      && MovieName in rec && ReleaseYear in rec && Imdb in rec && ImdbId in rec
      && rec[MovieName] == Text(row.name)
      && rec[ReleaseYear] == Number(row.year)
      && rec[Imdb] == OptionCell(Hyperlink(RowId(row, search)))
      && rec[ImdbId] == OptionCell(RowId(row, search))
  {
    var id := RowId(row, search);
    var urls := Urls(id);
    var base := BaseRecord(row, id);
    var titles := SiteTitles(urls, t, web, |AllSites|);
    AddSitesKeeps(base, t, urls, titles, MovieName);
    AddSitesKeeps(base, t, urls, titles, ReleaseYear);
    AddSitesKeeps(base, t, urls, titles, Imdb);
    AddSitesKeeps(base, t, urls, titles, ImdbId);
  }

  /** An enabled site's column holds its generated URL, and its title column
      the result of verifying that URL. */
  lemma RowRecordEnabledSite(row: Row, t: Toggles, search: Search, web: Web, s: Site)
    requires ValidToggles(t) && Execute(t, s)
    ensures var rec := RowRecord(row, t, search, web);
      var url := Url(s, RowId(row, search));
      && SiteUrl(s) in rec && SiteTitle(s) in rec
      && rec[SiteUrl(s)] == Text(url)
      && rec[SiteTitle(s)] == Text(GetTitle(url, true, web))
  {
    var id := RowId(row, search);
    var urls := Urls(id);
    var titles := SiteTitles(urls, t, web, |AllSites|);
    EnabledIffExecute(t, s);
    AddSitesWrites(BaseRecord(row, id), t, urls, titles, s);
    AllSitesComplete(s);
    SiteTitlesComplete(urls, t, web, |AllSites|);
    var k :| 0 <= k < |AllSites| && AllSites[k] == s;
    assert titles[s] == GetTitle(urls[s], true, web);
  }

  /** A disabled site is absent from the record: neither its URL column nor
      its title column is there. */
  lemma RowRecordDisabledSite(row: Row, t: Toggles, search: Search, web: Web, s: Site)
    requires ValidToggles(t) && !Execute(t, s)
    ensures SiteUrl(s) !in RowRecord(row, t, search, web)
    ensures SiteTitle(s) !in RowRecord(row, t, search, web)
  {
    var id := RowId(row, search);
    var urls := Urls(id);
    var base := BaseRecord(row, id);
    assert SiteUrl(s) !in base && SiteTitle(s) !in base;
    var titles := SiteTitles(urls, t, web, |AllSites|);
    EnabledIffExecute(t, s);
    AddSitesSkips(base, t, urls, titles, s);
  }

  /** Under the sidebar toggles, a record has a site's URL column and its
      title column exactly when that site's check box is ticked. */
  lemma RowRecordCheckedSite(row: Row, checked: seq<bool>, search: Search, web: Web, k: int)
    requires |checked| == |AllSites| && 0 <= k < |AllSites|
    ensures var rec := RowRecord(row, SidebarToggles(checked), search, web);
      && (SiteUrl(AllSites[k]) in rec <==> checked[k])
      && (SiteTitle(AllSites[k]) in rec <==> checked[k])
  {
    var t := SidebarToggles(checked);
    SidebarExecute(checked, k);
    if checked[k] {
      RowRecordEnabledSite(row, t, search, web, AllSites[k]);
    } else {
      RowRecordDisabledSite(row, t, search, web, AllSites[k]);
    }
  }
}
