/** The liveness check `get_title_from_imdb_url`: when enabled it fetches the
    page and returns the text of its `<title>` element; any failure becomes
    `Not Found`, and when disabled nothing is fetched. */
module Verification {
  import opened Wrappers

  /** What a GET of a URL yields: a parsed page whose `<title>` element is
      present (with its text) or missing, or an exception raised by the
      request or the parser. */
  datatype Fetch = Page(title: Option<string>) | Failed

  /** The network as seen by the script: the outcome of fetching each URL. */
  type Web = string -> Fetch

  const NotExecuted: string := "Not Executed"
  const NotFound: string := "Not Found"

  /** `get_title_from_imdb_url(url, execute)` with the fetch answered by `web`.
      A missing `<title>` makes `.text` raise, which the handler turns into
      `Not Found` like any other failure. */
  function GetTitle(url: string, execute: bool, web: Web): (r: string)
    ensures !execute ==> r == NotExecuted
    ensures execute ==> (r == NotFound || web(url) == Page(Some(r)))
  {
    if !execute then NotExecuted
    else match web(url)
      case Page(Some(title)) => title
      case Page(None) => NotFound
      case Failed => NotFound
  }

  /** Disabled, the result does not depend on the web at all: no fetch. */
  lemma DisabledIgnoresWeb(url: string, w1: Web, w2: Web)
    ensures GetTitle(url, false, w1) == GetTitle(url, false, w2) == NotExecuted
  {
  }

  /** Enabled, the result depends on the fetch of this one URL only. */
  lemma EnabledReadsOnlyItsUrl(url: string, w1: Web, w2: Web)
    requires w1(url) == w2(url)
    ensures GetTitle(url, true, w1) == GetTitle(url, true, w2)
  {
  }

  /** Enabled, a failed request or a page without a title collapses to
      `Not Found`; a page with a title yields that title. */
  lemma EnabledOutcomes(url: string, web: Web)
    ensures web(url) == Failed ==> GetTitle(url, true, web) == NotFound
    ensures web(url) == Page(None) ==> GetTitle(url, true, web) == NotFound
    ensures forall t :: web(url) == Page(Some(t)) ==> GetTitle(url, true, web) == t
  {
  }
}
