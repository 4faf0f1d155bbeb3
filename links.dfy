/** The link builders `generate_imdb_hyperlink` and
    `generate_urls_with_imdb_ids`: string templates over the IMDb id. */
module Links {
  import opened Wrappers

  /** How a Python f-string renders the id: the text itself, or `None`
      when the search found nothing. */
  function IdText(id: Option<string>): string {
    match id
    case Some(s) => s
    case None => "None"
  }

  const ImdbTitlePrefix: string := "https://www.imdb.com/title/tt"

  /** `generate_imdb_hyperlink`: the IMDb title page when the id is truthy
      (present and not empty), none otherwise. */
  function Hyperlink(id: Option<string>): (r: Option<string>)
    ensures r.Some? <==> id.Some? && id.value != ""
    ensures r.Some? ==> |r.value| > |ImdbTitlePrefix| &&
                        r.value[..|ImdbTitlePrefix|] == ImdbTitlePrefix &&
                        r.value[|ImdbTitlePrefix|..] == id.value
  {
    if id.Some? && id.value != "" then Some(ImdbTitlePrefix + id.value) else None
  }

  /** The six embed sites. A site is known by its name, which is the key of
      the URL dictionary, of the toggles and of the record columns. */
  datatype Site = VidsrcTo | VidsrcMe | SmashyStream | TwoEmbedMe | TwoEmbedCc | DatabaseGdrivePlayer
  {
    function Name(): string {
      match this
      case VidsrcTo => "vidsrc.to"
      case VidsrcMe => "vidsrc.me"
      case SmashyStream => "smashystream.com"
      case TwoEmbedMe => "2embed.me"
      case TwoEmbedCc => "2embed.cc"
      case DatabaseGdrivePlayer => "databasegdriveplayer.xyz"
    }

    /** The site's URL up to the `tt` that precedes the id. */
    function Prefix(): string {
      match this
      case VidsrcTo => "https://vidsrc.to/embed/movie/"
      case VidsrcMe => "https://vidsrc.me/embed/"
      case SmashyStream => "https://embed.smashystream.com/playere.php?imdb="
      case TwoEmbedMe => "https://2embed.me/movie/"
      case TwoEmbedCc => "https://www.2embed.cc/embed/"
      case DatabaseGdrivePlayer => "https://databasegdriveplayer.xyz/player.php?imdb="
    }
  }

  /** The sites in the order of the dictionary literal. */
  const AllSites: seq<Site> :=
    [VidsrcTo, VidsrcMe, SmashyStream, TwoEmbedMe, TwoEmbedCc, DatabaseGdrivePlayer]

  /** Every site is listed once in the dictionary order. */
  lemma AllSitesComplete(s: Site)
    ensures s in AllSites
    ensures forall i, j :: 0 <= i < j < |AllSites| ==> AllSites[i] != AllSites[j]
  {
  }

  /** One entry of the dictionary: `f"{prefix}tt{imdb_id}"`. */
  function Url(s: Site, id: Option<string>): string {
    s.Prefix() + "tt" + IdText(id)
  }

  /** `generate_urls_with_imdb_ids`: the dictionary from site to embed URL,
      with every site as a key. */
  function Urls(id: Option<string>): (r: map<Site, string>)
    ensures forall s: Site :: s in r && r[s] == Url(s, id)
  {
    forall s: Site ensures s in AllSites { AllSitesComplete(s); }
    map s | s in AllSites :: Url(s, id)
  }

  /** The site names tell the sites apart. */
  lemma SiteNameInjective(s: Site, u: Site)
    requires s.Name() == u.Name()
    ensures s == u
  {
  }

  /** Reads the id back out of a URL of site `s`. */
  function UrlId(s: Site, url: string): Option<string> {
    var head := s.Prefix() + "tt";
    if |head| <= |url| && url[..|head|] == head then Some(url[|head|..]) else None
  }

  /** Every generated URL carries the rendered id, so the id is recovered. */
  lemma UrlIdRoundTrip(id: Option<string>, s: Site)
    ensures UrlId(s, Urls(id)[s]) == Some(IdText(id))
  {
    var head := s.Prefix() + "tt";
    var url := head + IdText(id);
    assert url[..|head|] == head;
    assert url[|head|..] == IdText(id);
  }

  /** The URL map is a function of the rendered id alone, in both directions:
      two ids give the same map exactly when they render alike. */
  lemma UrlsDetermineId(a: Option<string>, b: Option<string>)
    ensures Urls(a) == Urls(b) <==> IdText(a) == IdText(b)
  {
    if Urls(a) == Urls(b) {
      UrlIdRoundTrip(a, VidsrcTo);
      UrlIdRoundTrip(b, VidsrcTo);
    }
  }

  /** The f-string artefact: a failed search yields the same URLs as the
      literal id `None`, each ending in `ttNone`. */
  lemma AbsentIdRendersAsNone(s: Site)
    ensures Urls(None) == Urls(Some("None"))
    ensures Urls(None)[s] == s.Prefix() + "ttNone"
  {
    UrlsDetermineId(None, Some("None"));
    Regroup(s.Prefix(), "tt", "None");
    NoneSuffix();
  }

  lemma NoneSuffix()
    ensures "tt" + "None" == "ttNone"
  {
  }

  /** Concatenation regrouped, to compare a URL with a literal suffix. */
  lemma Regroup(a: string, b: string, c: string)
    ensures a + b + c == a + (b + c)
  {
  }
}
