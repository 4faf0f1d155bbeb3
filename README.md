# Advanced movie search: the per-row pipeline

This project models the deterministic core of `advacedmoviesearch.py`, a
Streamlit script. The user uploads a table of movie titles and release years.
For every row the script:

1. resolves an IMDb id: the first search result whose year is present and equal
   to the row's year, or none;
2. builds the IMDb title link and the embed URLs of six streaming sites from
   the id;
3. fetches each URL's page title, but only for the sites whose sidebar check box
   is ticked;
4. appends one record to the result list.

Finally it selects the table columns: the four fixed ones, then the enabled
sites, then the enabled sites' title columns.

The IMDb search and the HTTP fetch are foreign calls, so they are parameters:

- `Search` (`string -> seq<SearchResult>`) gives the search answer for a title.
- `Web` (`string -> Fetch`) gives, for each URL, a parsed page whose `<title>`
  element is present or missing, or a failure of the request or the parser.

Modules, one per component of the script:

- `MovieSearch` (`search.dfy`): the exact-year filter of `search_movie_imdb`.
- `Links` (`links.dfy`): `generate_imdb_hyperlink` and `generate_urls_with_imdb_ids`.
  The six sites are the datatype `Site`; `Site.Name()` is the dictionary key text.
  An absent id is rendered as a Python f-string renders `None`, so every URL of a
  failed search ends in `ttNone`.
- `Verification` (`verification.dfy`): the gate of `get_title_from_imdb_url`.
- `Toggles` (`toggles.dfy`): the `url_options` dictionary as an ordered list of
  (site, flag) pairs, `url_options.get(site, False)` and the enabled-site list.
- `Records` (`records.dfy`): the record `result_dict`, as a map keyed by
  `Column`. `Column.Name()` is the source's header text (`Movie Name`,
  `vidsrc.to`, `vidsrc.to Title`, ...). `ColumnNameInjective` proves that no two
  columns share a header text, so a map keyed by `Column` loses nothing against
  the source's string-keyed dictionary.
- `Columns` (`columns.dfy`): `selected_columns` and `pd.DataFrame(results)[selected_columns]`.
- `Pipeline` (`pipeline.dfy`): the row loop as methods with loops. The methods
  also return the list of URLs fetched, which models the outbound GET requests.
- `Scenarios` (`scenarios.dfy`): two worked rows, one resolved and one
  unresolved.

The model follows the script as written, including two behaviours a reader
might not expect:

- When the search finds no id, the f-string renders `None`, so every embed URL
  of that row ends in `ttNone`; there is no special case for a missing id.
- An exception raised by the IMDb search is not caught anywhere in the script.
  The run would abort; it does not continue the row with an absent id.

## Model

| member | source | states |
|---|---|---|
| MovieSearch.SearchMovie | advacedmoviesearch.py:17-26 | the selector once the search answer is known; `SearchMovieFindsFirstMatch` and `SearchMovieNoneIffNoMatch` establish that it returns the first exact-year match, and none exactly when there is no match |
| MovieSearch.Filtered | advacedmoviesearch.py:20 | the filtered list keeps exactly the entries with a present year equal to the requested one: each kept entry matches and comes from the answer, and every matching entry is kept |
| MovieSearch.FilteredHeadIsFirstMatch | advacedmoviesearch.py:20-22 | the first filtered entry is an entry of the answer with no matching entry before it |
| MovieSearch.SearchMovieFindsFirstMatch | advacedmoviesearch.py:17-24 | a returned id is the id of the first result whose year is present and equal to the requested year; no earlier result has that year |
| MovieSearch.SearchMovieNoneIffNoMatch | advacedmoviesearch.py:20-26 | the selector returns none exactly when no result has a present year equal to the requested one |
| Links.Hyperlink | advacedmoviesearch.py:29-33 | the link is present iff the id is present and non-empty (truthiness), and is then `https://www.imdb.com/title/tt` followed by the id |
| Links.IdText | advacedmoviesearch.py:38-43 | how the f-string renders the id; `UrlIdRoundTrip` reads it back out of every URL, and `AbsentIdRendersAsNone` shows that an absent id renders as `None` |
| Links.Url | advacedmoviesearch.py:38-43 | one dictionary value: the site's prefix, `tt` and the rendered id; `UrlIdRoundTrip` recovers the rendered id from it |
| Links.Urls | advacedmoviesearch.py:36-45 | every one of the six sites is a key, and each value is that site's prefix, `tt` and the rendered id |
| Links.AllSitesComplete | advacedmoviesearch.py:37-44 | the dictionary order lists every site, and lists each site once |
| Links.SiteNameInjective | advacedmoviesearch.py:37-44 | distinct sites have distinct key texts |
| Links.UrlIdRoundTrip | advacedmoviesearch.py:36-45 | reading the id back out of any generated URL gives the rendered id |
| Links.UrlsDetermineId | advacedmoviesearch.py:36-45 | two ids give the same URL map exactly when they render to the same text: the map is a deterministic function of the id |
| Links.AbsentIdRendersAsNone | advacedmoviesearch.py:36-45 | a failed search gives the same URLs as the literal id `None`; each ends in `ttNone` |
| Verification.GetTitle | advacedmoviesearch.py:48-60 | disabled, the result is `Not Executed`; enabled, it is `Not Found` or the title of the fetched page |
| Verification.DisabledIgnoresWeb | advacedmoviesearch.py:48-58 | disabled, the result is `Not Executed` whatever the web answers, so nothing is fetched |
| Verification.EnabledReadsOnlyItsUrl | advacedmoviesearch.py:50-56 | enabled, the result depends only on the fetch of that one URL |
| Verification.EnabledOutcomes | advacedmoviesearch.py:50-60 | enabled, a failed request or a page without a title gives `Not Found`; a page with a title gives that title |
| Toggles.SidebarToggles | advacedmoviesearch.py:132-139 | the check boxes form a dictionary with every site once, in declaration order |
| Toggles.Execute | advacedmoviesearch.py:155 | `get(site, False)` is true iff the first entry for the site has its flag set |
| Toggles.Enabled | advacedmoviesearch.py:174 | a site is in the enabled list exactly when the toggles hold an entry for it with the flag set |
| Toggles.EnabledInToggleOrder | advacedmoviesearch.py:174-175 | the enabled list keeps toggle order: of two listed sites, the earlier one has its set entry earlier in the toggles |
| Toggles.SidebarExecute | advacedmoviesearch.py:132-155 | on the sidebar toggles, `get(site, False)` reads exactly that site's own check box |
| Toggles.EnabledIffExecute | advacedmoviesearch.py:155-165 | with distinct keys, a site is in the enabled list exactly when `get` reads its flag as set |
| Toggles.EnabledDistinct | advacedmoviesearch.py:174 | the enabled list has no repetitions |
| Records.ColumnNameInjective | advacedmoviesearch.py:158-167 | no two record keys have the same header text, so no key of `result_dict` overwrites another |
| Records.BaseRecord | advacedmoviesearch.py:158-163 | the four fixed keys of `result_dict`; `RowRecordFixed` establishes their values in every record |
| Records.SiteTitles | advacedmoviesearch.py:153-157 | `imdb_titles` after the first n sites; `SiteTitlesComplete` establishes its keys and values, and `Pipeline.VerifySites` is proved equal to it |
| Records.AddSites | advacedmoviesearch.py:164-167 | the loop over `url_options`; `AddSitesKeys`, `AddSitesKeeps`, `AddSitesWrites` and `AddSitesSkips` establish which keys it adds and what they hold, and `Pipeline.BuildRecord` is proved equal to it |
| Records.RowRecord | advacedmoviesearch.py:150-167 | the record the loop body appends for one row; the `RowRecord...` lemmas establish its keys and every value, and `Pipeline.ProcessRows` is proved to append it for each row |
| Records.SiteTitlesComplete | advacedmoviesearch.py:153-157 | after the verification loop every site has an entry, holding its URL verified under that site's flag |
| Records.AddSitesKeys | advacedmoviesearch.py:164-167 | the loop over the toggles adds exactly the URL column and the title column of each enabled site |
| Records.AddSitesKeeps | advacedmoviesearch.py:158-167 | the loop over the toggles leaves the fixed columns as they were |
| Records.AddSitesWrites | advacedmoviesearch.py:164-167 | an enabled site's URL column holds the map's URL, and its title column holds the verification result (`Not Found` when missing) |
| Records.AddSitesSkips | advacedmoviesearch.py:164-167 | a site that is not enabled gets no column |
| Records.RowRecordKeys | advacedmoviesearch.py:150-167 | a record's keys are exactly the four fixed columns plus the URL and title columns of the enabled sites |
| Records.RowRecordFixed | advacedmoviesearch.py:158-163 | the fixed columns hold the row's name and year, the IMDb link (or None) and the id (or None) |
| Records.RowRecordEnabledSite | advacedmoviesearch.py:150-167 | an enabled site's column holds its generated URL, and its title column holds that URL's verification result |
| Records.RowRecordDisabledSite | advacedmoviesearch.py:164-167 | a disabled site has neither its URL column nor its title column |
| Records.RowRecordCheckedSite | advacedmoviesearch.py:132-167 | under the sidebar toggles, a record has a site's two columns exactly when that site's check box is ticked |
| Columns.SelectedColumns | advacedmoviesearch.py:173-175 | `selected_columns`; `SelectedColumnNames`, `SelectedColumnsDistinct` and `SelectedColumnsSet` establish its header texts, their order and its contents |
| Columns.SelectedColumnNames | advacedmoviesearch.py:173-175 | the header texts are `Movie Name`, `Release Year`, `IMDb`, `IMDb ID`, then the n enabled site names in the order of the enabled list (toggle order, by `Toggles.EnabledInToggleOrder`), then the same names with ` Title`; 4 + 2n in all |
| Columns.SelectedColumnsDistinct | advacedmoviesearch.py:173-175 | no header text is selected twice |
| Columns.SelectedColumnsSet | advacedmoviesearch.py:173-175 | the selection is the fixed columns plus the URL and title columns of the enabled sites, and nothing else |
| Columns.SelectedColumnsAreRecordKeys | advacedmoviesearch.py:158-176 | the selected columns are exactly the keys of every record |
| Columns.FrameColumns | advacedmoviesearch.py:176 | the columns of `pd.DataFrame(results)`, every key of every record; `ProjectCompleteRecords` shows that it holds every selected column exactly when there is a record |
| Columns.MissingColumns | advacedmoviesearch.py:176 | the missing list is empty iff every requested column is in the frame |
| Columns.Project | advacedmoviesearch.py:176 | the selection succeeds iff every requested column is a frame column; the table then has one row per record and one cell per column |
| Columns.ProjectedRows | advacedmoviesearch.py:176 | the table has one row per record and one cell per column |
| Columns.RecordsHoldSelectedColumns | advacedmoviesearch.py:158-176 | every record the loop builds holds every selected column, so no cell of the table is a `NaN` fill |
| Columns.ProjectCompleteRecords | advacedmoviesearch.py:176 | when every record holds every requested column, the selection fails exactly when there are no records (an empty frame has no columns); otherwise each cell is the record's own value under that column |
| Pipeline.RowRequests | advacedmoviesearch.py:153-157 | the URLs one row's verification loop fetches, in site order; `RowRequestsAreEnabledUrls` and `RowRequestsBound` establish which URLs and how many |
| Pipeline.Requests | advacedmoviesearch.py:147-157 | the URLs the whole run fetches, row after row; `NothingEnabledNothingFetched` and `RequestsBound` bound them, and `ProcessRows` is proved to fetch exactly these |
| Pipeline.RowRequestsAreEnabledUrls | advacedmoviesearch.py:153-157 | the loop fetches a URL exactly when it belongs to a site whose flag is set |
| Pipeline.RowRequestsBound | advacedmoviesearch.py:153-157 | at most one fetch per site and row, and no fetch when no flag is set |
| Pipeline.NothingEnabledNothingFetched | advacedmoviesearch.py:147-157 | with every check box cleared, the whole run fetches nothing |
| Pipeline.RequestsBound | advacedmoviesearch.py:147-157 | the run fetches at most six URLs per row |
| Pipeline.MapRowsAt | advacedmoviesearch.py:143-168 | the appended list has one entry per row, and each position holds the entry of the row at that position |
| Pipeline.VerifySites | advacedmoviesearch.py:153-157 | the loop builds `imdb_titles` site by site, and it fetches exactly the enabled sites' URLs in dictionary order |
| Pipeline.BuildRecord | advacedmoviesearch.py:158-167 | the loop builds the record as the fixed columns plus, toggle by toggle, each enabled site's URL and title |
| Pipeline.ProcessRows | advacedmoviesearch.py:143-168 | one record per input row, in input order, each the record of its own row; the fetches are those of the rows in order |
| Pipeline.RunScript | advacedmoviesearch.py:132-176 | on the six sidebar check boxes, the run gives one record per row and fetches the rows' requests in order; a record has a site's two columns exactly when that site's box is ticked; every record holds every selected column; the column selection succeeds iff there is at least one row, and is then the projection of the records onto the selected columns |
| Scenarios.ResolvedId | advacedmoviesearch.py:17-26 | a search answer whose first entry lacks a year and whose second has the requested year resolves to the second entry's id |
| Scenarios.ResolvedRowLink | advacedmoviesearch.py:29-33 | under any check boxes, that row's record links to `https://www.imdb.com/title/tt1375666` |
| Scenarios.ResolvedRowSite | advacedmoviesearch.py:150-167 | for an enabled site, the site's column is its prefix followed by `tt1375666`, and its title column holds the fetched page's title `Embed player` |
| Scenarios.UnresolvedId | advacedmoviesearch.py:20-26 | a year that no search result has resolves to no id |
| Scenarios.UnresolvedRow | advacedmoviesearch.py:20-45 | for an enabled site, a year that matches no result gives no id, no link, and a URL ending in `ttNone` |

## Left out

- The IMDb search (lines 18-19) and `getID` (line 23) are a foreign network call. The search answer is a parameter, and the search is modelled as total: an exception it raises would abort the run, and that is not modelled.
- The HTTP GET, the BeautifulSoup parsing (lines 53-55) and the random User-Agent choice (lines 51-52, 121-125) are network I/O, parsing and randomness. The outcome of each fetch is a parameter (`Web`); the header value is not modelled.
- `create_download_link_csv` and `create_download_link_html` (lines 63-119) are left out. They are serialization through pandas, wall-clock timestamps, CSS text and base64 through library calls.
- The Streamlit widgets, the progress bar, tqdm and the rendering of the table (lines 127-205) are user interface.
- `play_internal_sound` (lines 12-14) is never called and refers to a module that is not imported.
- Reading the CSV with `pd.read_csv` (line 142) is file I/O. Rows arrive as (title, integer year) pairs; a non-integer or missing year cell is not modelled.
- Pandas column types (numpy integers, object columns) are not modelled. A cell is text, an integer, Python's `None`, or the `NaN` fill of a missing key.
- The search answer and the fetch outcomes are a snapshot of the network for the whole run: `Search` and `Web` are fixed functions, so a repeated title or a repeated URL (such as the `ttNone` URLs of every unresolved row) gets the same answer each time, whereas the script sends independent requests whose answers may differ.
- Records.AddSitesWrites: the `'Not Found'` defaults of `urls_with_imdb_ids.get` and `imdb_titles.get` (lines 166-167) are modelled. They never apply, because every site is a key of both dictionaries.
- Toggles.EnabledIffExecute: requires distinct toggle keys. A Python dictionary cannot hold a key twice, and the toggle list models that dictionary.
