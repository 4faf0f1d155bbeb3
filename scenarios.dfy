/** Two worked runs of one row: a title the search resolves, and a year
    that matches no search result. */
module Scenarios {
  import opened Wrappers
  import opened MovieSearch
  import opened Links
  import opened Verification
  import opened Toggles
  import opened Records

  /** A search service that knows one film. */
  function InceptionSearch(title: string): seq<SearchResult> {
    if title == "Inception" then [SearchResult(None, "0000001"), SearchResult(Some(2010), "1375666")] else []
  }

  /** A web whose every page has the title `Embed player`. */
  function EmbedWeb(url: string): Fetch {
    Page(Some("Embed player"))
  }

  /** The search resolves the row to id 1375666: the first result has no
      year, the second has the requested one. */
  lemma ResolvedId()
    ensures RowId(Row("Inception", 2010), InceptionSearch) == Some("1375666")
  {
    var ms := InceptionSearch("Inception");
    var hit := SearchResult(Some(2010), "1375666");
    assert ms[1..] == [hit] && [hit][1..] == [];
    assert Filtered(ms, 2010) == [hit];
  }

  /** The year matching, under any check boxes: the record links to the IMDb
      page of id 1375666. */
  lemma ResolvedRowLink(t: Toggles, web: Web)
    ensures var rec := RowRecord(Row("Inception", 2010), t, InceptionSearch, web);
      Imdb in rec && rec[Imdb] == Text("https://www.imdb.com/title/tt1375666")
  {
    ResolvedId();
    RowRecordFixed(Row("Inception", 2010), t, InceptionSearch, web);
    ResolvedLinkText();
  }

  lemma ResolvedLinkText()
    ensures ImdbTitlePrefix + "1375666" == "https://www.imdb.com/title/tt1375666"
  {
  }

  lemma ResolvedSuffix()
    ensures "tt" + "1375666" == "tt1375666"
  {
  }

  /** The year matching and site `s` enabled (as all sites are by default):
      the site's column holds its embed URL for id 1375666, and its title
      column what the page's title says. */
  lemma ResolvedRowSite(t: Toggles, s: Site)
    requires ValidToggles(t) && Execute(t, s)
    ensures var rec := RowRecord(Row("Inception", 2010), t, InceptionSearch, EmbedWeb);
      && SiteUrl(s) in rec && SiteTitle(s) in rec
      && rec[SiteUrl(s)] == Text(s.Prefix() + "tt1375666")
      && rec[SiteTitle(s)] == Text("Embed player")
  {
    ResolvedId();
    RowRecordEnabledSite(Row("Inception", 2010), t, InceptionSearch, EmbedWeb, s);
    Regroup(s.Prefix(), "tt", "1375666");
    ResolvedSuffix();
  }

  /** No search result has the year 1999: the row resolves to no id. */
  lemma UnresolvedId()
    ensures RowId(Row("Inception", 1999), InceptionSearch) == None
  {
    var ms := InceptionSearch("Inception");
    assert ms[1..][1..] == [];
    assert Filtered(ms, 1999) == [];
  }

  /** A year that matches no result, site `s` enabled: no id, no IMDb link,
      and the site's embed URL ends in `ttNone`. */
  lemma UnresolvedRow(t: Toggles, s: Site)
    requires ValidToggles(t) && Execute(t, s)
    ensures var rec := RowRecord(Row("Inception", 1999), t, InceptionSearch, EmbedWeb);
      && Imdb in rec && ImdbId in rec && SiteUrl(s) in rec
      && rec[Imdb] == NoneValue
      && rec[ImdbId] == NoneValue
      && rec[SiteUrl(s)] == Text(s.Prefix() + "ttNone")
  {
    var row := Row("Inception", 1999);
    UnresolvedId();
    RowRecordFixed(row, t, InceptionSearch, EmbedWeb);
    RowRecordEnabledSite(row, t, InceptionSearch, EmbedWeb, s);
    Regroup(s.Prefix(), "tt", "None");
    NoneSuffix();
  }
}
