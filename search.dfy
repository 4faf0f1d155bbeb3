/** The exact-year filter of `search_movie_imdb`: out of the results of an
    IMDb title search, pick the identifier of the first one whose year is
    known and equal to the year asked for. The search itself is a network
    call; here its answer is an input sequence. */
module MovieSearch {
  import opened Wrappers

  /** One entry of a search answer: the `year` key may be missing, and
      `id` is what `getID()` returns (the digits without the `tt`). */
  datatype SearchResult = SearchResult(year: Option<int>, id: string)

  /** `"year" in movie and movie["year"] == release_year` */
  predicate YearMatches(m: SearchResult, year: int) {
    m.year == Some(year)
  }

  /** The list comprehension `filtered_movies`: the matching entries, in the
      order of the search answer. */
  function Filtered(ms: seq<SearchResult>, year: int): (r: seq<SearchResult>)
    ensures |r| <= |ms|
    ensures forall k :: 0 <= k < |r| ==> YearMatches(r[k], year) && r[k] in ms
    ensures forall k :: 0 <= k < |ms| && YearMatches(ms[k], year) ==> ms[k] in r
  {
    if ms == [] then []
    else if YearMatches(ms[0], year) then [ms[0]] + Filtered(ms[1..], year)
    else Filtered(ms[1..], year)
  }

  /** `search_movie_imdb` once the search answer is known: the id of the first
      filtered entry, or none when nothing matched. */
  function SearchMovie(ms: seq<SearchResult>, year: int): Option<string> {
    var filtered := Filtered(ms, year);
    if |filtered| > 0 then Some(filtered[0].id) else None
  }

  /** The head of the filtered list is the first matching entry of the answer. */
  lemma {:induction false} FilteredHeadIsFirstMatch(ms: seq<SearchResult>, year: int)
    requires |Filtered(ms, year)| > 0
    ensures exists i :: (0 <= i < |ms| && ms[i] == Filtered(ms, year)[0] &&
                         forall j :: 0 <= j < i ==> !YearMatches(ms[j], year))
  {
    if YearMatches(ms[0], year) {
      assert ms[0] == Filtered(ms, year)[0];
    } else {
      FilteredHeadIsFirstMatch(ms[1..], year);
      var i :| 0 <= i < |ms[1..]| && ms[1..][i] == Filtered(ms[1..], year)[0] &&
        forall j :: 0 <= j < i ==> !YearMatches(ms[1..][j], year);
      assert ms[i + 1] == Filtered(ms, year)[0];
      forall j | 0 <= j < i + 1 ensures !YearMatches(ms[j], year) {
        if j > 0 { assert ms[j] == ms[1..][j - 1]; }
      }
    }
  }

  /** The selector returns the id of the first entry whose year is present and
      equal to the requested one, and no earlier entry has that year. */
  lemma SearchMovieFindsFirstMatch(ms: seq<SearchResult>, year: int)
    requires SearchMovie(ms, year).Some?
    ensures exists i :: (0 <= i < |ms| && YearMatches(ms[i], year) &&
                         ms[i].id == SearchMovie(ms, year).value &&
                         forall j :: 0 <= j < i ==> !YearMatches(ms[j], year))
  {
    FilteredHeadIsFirstMatch(ms, year);
  }

  /** The selector answers none exactly when no entry has the requested year. */
  lemma SearchMovieNoneIffNoMatch(ms: seq<SearchResult>, year: int)
    ensures SearchMovie(ms, year) == None <==>
      forall i :: 0 <= i < |ms| ==> !YearMatches(ms[i], year)
  {
    if SearchMovie(ms, year) != None {
      FilteredHeadIsFirstMatch(ms, year);
    }
  }
}
