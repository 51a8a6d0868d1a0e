/** The tab bar of the reports section (`src/app/reports/layout.tsx`): the tab
    shown as active is picked from the current path. */
module ReportsLayout {
  import opened Options

  /** A tab of the bar (`caption` is the source's `label`); its icon is left out. */
  datatype ReportTab = ReportTab(value: string, caption: string, href: string)

  /** `reportTabs`, in the order they are tried. */
  const ReportTabs: seq<ReportTab> := [
    ReportTab("leaves", "Leaves", "/reports/leaves"),
    ReportTab("wages", "Wages", "/reports/wages"),
    ReportTab("anomalies", "Anomalies", "/reports/anomalies")
  ]

  /** `s.startsWith(prefix)`. */
  predicate StartsWith(s: string, prefix: string) {
    |prefix| <= |s| && s[..|prefix|] == prefix
  }

  /** The index of `tabs.find(tab => pathname.startsWith(tab.href))`: the first
      tab whose `href` is a prefix of the path, or none. */
  function FindTab(tabs: seq<ReportTab>, pathname: string): (r: Option<nat>)
    ensures r.None? <==> forall i :: 0 <= i < |tabs| ==> !StartsWith(pathname, tabs[i].href)
    ensures r.Some? ==> r.value < |tabs| && StartsWith(pathname, tabs[r.value].href)
    ensures r.Some? ==> forall j :: 0 <= j < r.value ==> !StartsWith(pathname, tabs[j].href)
  {
    if tabs == [] then None
    else if StartsWith(pathname, tabs[0].href) then Some(0)
    else
      match FindTab(tabs[1..], pathname)
      case None => None
      case Some(i) => Some(i + 1)
  }

  /** `activeTab`: the found tab's value, or `'leaves'` when no tab matches
      (or, by `||`, when the value is empty). */
  function ActiveTab(pathname: string): (r: string)
    ensures r == "leaves" || r == "wages" || r == "anomalies"
  {
    match FindTab(ReportTabs, pathname)
    case None => "leaves"
    case Some(i) => if ReportTabs[i].value != "" then ReportTabs[i].value else "leaves"
  }

  /** A path that starts with `prefix` agrees with it at index 9. */
  lemma PrefixChar(pathname: string, prefix: string)
    requires |prefix| > 9
    ensures StartsWith(pathname, prefix) ==> |pathname| > 9 && pathname[9] == prefix[9]
  {
    if StartsWith(pathname, prefix) {
      assert pathname[..|prefix|][9] == pathname[9];
    }
  }

  /** The tabs' paths exclude one another: they first differ at index 9. */
  lemma HrefsDisjoint(pathname: string)
    ensures !(StartsWith(pathname, "/reports/leaves") && StartsWith(pathname, "/reports/wages"))
    ensures !(StartsWith(pathname, "/reports/leaves") && StartsWith(pathname, "/reports/anomalies"))
    ensures !(StartsWith(pathname, "/reports/wages") && StartsWith(pathname, "/reports/anomalies"))
  {
    PrefixChar(pathname, "/reports/leaves");
    PrefixChar(pathname, "/reports/wages");
    PrefixChar(pathname, "/reports/anomalies");
  }

  /** A path under a tab's `href` makes that tab active; every other path,
      including those of the expenditure report and the reports root, gives
      `'leaves'`. */
  lemma ActiveTabSpec(pathname: string)
    ensures ActiveTab(pathname) == "wages" <==> StartsWith(pathname, "/reports/wages")
    ensures ActiveTab(pathname) == "anomalies" <==> StartsWith(pathname, "/reports/anomalies")
    ensures ActiveTab(pathname) == "leaves" <==>
      !StartsWith(pathname, "/reports/wages") && !StartsWith(pathname, "/reports/anomalies")
  {
    HrefsDisjoint(pathname);
    assert ReportTabs[0].href == "/reports/leaves";
    assert ReportTabs[1].href == "/reports/wages";
    assert ReportTabs[2].href == "/reports/anomalies";
  }

  /** A path too short for the wages and anomalies tabs, or whose tenth
      character starts neither name, leaves `'leaves'` active. */
  lemma NoTabGivesLeaves(pathname: string)
    requires |pathname| < 14 || (pathname[9] != 'w' && pathname[9] != 'a')
    ensures ActiveTab(pathname) == "leaves"
  {
    ActiveTabSpec(pathname);
    PrefixChar(pathname, "/reports/wages");
    PrefixChar(pathname, "/reports/anomalies");
  }

  /** `/reports` and `/reports/expenditure` have no tab of their own. */
  lemma UncoveredPathsGiveLeaves()
    ensures ActiveTab("/reports") == "leaves"
    ensures ActiveTab("/reports/expenditure") == "leaves"
  {
    NoTabGivesLeaves("/reports");
    var expenditure := "/reports/expenditure";
    assert expenditure[9] == 'e';
    NoTabGivesLeaves(expenditure);
  }
}
