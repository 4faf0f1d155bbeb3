/** The sidebar check boxes `url_options`: one flag per embed site, read once
    before the rows are processed, kept in declaration order. */
module Toggles {
  import opened Links

  type Toggles = seq<(Site, bool)>

  predicate Distinct<T(==)>(s: seq<T>) {
    forall i, j :: 0 <= i < j < |s| ==> s[i] != s[j]
  }

  function Keys(t: Toggles): (r: seq<Site>)
    ensures |r| == |t| && forall i :: 0 <= i < |t| ==> r[i] == t[i].0
  {
    seq(|t|, i requires 0 <= i < |t| => t[i].0)
  }

  /** A dictionary: no site twice. */
  predicate ValidToggles(t: Toggles) {
    Distinct(Keys(t))
  }

  /** The toggles the script builds: every site, in the dictionary order,
      each with its check box's value. */
  function SidebarToggles(checked: seq<bool>): (t: Toggles)
    requires |checked| == |AllSites|
    ensures ValidToggles(t) && Keys(t) == AllSites
  {
    AllSitesComplete(VidsrcTo);
    seq(|AllSites|, i requires 0 <= i < |AllSites| => (AllSites[i], checked[i]))
  }

  /** On the sidebar toggles, `get` reads each site's own check box. */
  lemma SidebarExecute(checked: seq<bool>, k: int)
    requires |checked| == |AllSites| && 0 <= k < |AllSites|
    ensures Execute(SidebarToggles(checked), AllSites[k]) == checked[k]
  {
    var t := SidebarToggles(checked);
    AllSitesComplete(VidsrcTo);
    assert t[k] == (AllSites[k], checked[k]);
    if Execute(t, AllSites[k]) {
      var i :| 0 <= i < |t| && t[i].0 == AllSites[k] && t[i].1 &&
               forall j :: 0 <= j < i ==> t[j].0 != AllSites[k];
      assert t[i].0 == AllSites[i];
    }
  }

  /** `url_options.get(site, False)`: the flag of the entry for `site`, or
      false when there is none. */
  function Execute(t: Toggles, site: Site): (r: bool)
    ensures r <==> exists i :: 0 <= i < |t| && t[i].0 == site && t[i].1 &&
                              forall j :: 0 <= j < i ==> t[j].0 != site
  {
    if t == [] then false
    else if t[0].0 == site then t[0].1
    else
      var r := Execute(t[1..], site);
      assert forall j :: 1 <= j < |t| ==> t[j] == t[1..][j - 1];
      r
  }

  /** `[site for site, execute in url_options.items() if execute]`: the
      enabled sites, in toggle order. */
  function Enabled(t: Toggles): (r: seq<Site>)
    ensures |r| <= |t|
    ensures forall s :: s in r <==> (s, true) in t
  {
    if t == [] then []
    else
      var init := t[..|t| - 1];
      var last := t[|t| - 1];
      assert t == init + [last];
      Enabled(init) + (if last.1 then [last.0] else [])
  }

  /** The enabled list keeps toggle order: of two enabled sites, the one
      listed first has its set entry first in the toggles. */
  lemma {:induction false} EnabledInToggleOrder(t: Toggles)
    ensures forall i, j :: 0 <= i < j < |Enabled(t)| ==>
      exists p, q :: 0 <= p < q < |t| && t[p] == (Enabled(t)[i], true) && t[q] == (Enabled(t)[j], true)
  {
    if t != [] {
      var init := t[..|t| - 1];
      var last := t[|t| - 1];
      var e := Enabled(init);
      var r := Enabled(t);
      EnabledInToggleOrder(init);
      assert r == e + (if last.1 then [last.0] else []);
      forall i, j | 0 <= i < j < |r|
        ensures exists p, q :: 0 <= p < q < |t| && t[p] == (r[i], true) && t[q] == (r[j], true)
      {
        if j < |e| {
          var p, q :| 0 <= p < q < |init| && init[p] == (e[i], true) && init[q] == (e[j], true);
          assert t[p] == (r[i], true) && t[q] == (r[j], true);
        } else {
          assert e[i] in e;
          var p :| 0 <= p < |init| && init[p] == (e[i], true);
          assert t[p] == (r[i], true) && t[|t| - 1] == (r[j], true);
        }
      }
    } else {
      assert Enabled(t) == [];
    }
  }

  /** With distinct sites, a site is listed as enabled exactly when its flag,
      as `get` reads it, is set. */
  lemma EnabledIffExecute(t: Toggles, site: Site)
    requires ValidToggles(t)
    ensures site in Enabled(t) <==> Execute(t, site)
  {
    if site in Enabled(t) {
      var j :| 0 <= j < |t| && t[j] == (site, true);
      forall i | 0 <= i < j ensures t[i].0 != site {
        assert Keys(t)[i] != Keys(t)[j];
      }
    }
  }

  /** Distinct sites give an enabled list without repetitions. */
  lemma {:induction false} EnabledDistinct(t: Toggles)
    requires ValidToggles(t)
    ensures Distinct(Enabled(t))
  {
    if t != [] {
      var init := t[..|t| - 1];
      assert Keys(init) == Keys(t)[..|t| - 1];
      EnabledDistinct(init);
      var last := t[|t| - 1];
      if last.1 {
        forall k | 0 <= k < |Enabled(init)| ensures Enabled(init)[k] != last.0 {
          assert Enabled(init)[k] in Enabled(init);
          var j :| 0 <= j < |init| && init[j] == (Enabled(init)[k], true);
          assert Keys(t)[j] != Keys(t)[|t| - 1];
        }
      }
    }
  }
}
