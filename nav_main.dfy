/** The admin sidebar's active-item rule. */
module NavMain {
  import opened Common
  import opened Text

  datatype NavLink = NavLink(title: string, url: string)
  datatype NavItem = NavItem(title: string, url: string, items: seq<NavLink>)

  /** The text a template literal produces for the `tab` query value; a missing parameter reads "null". */
  function TabText(currentTab: Option<string>): (r: string)
    ensures currentTab.None? ==> r == "null"
    ensures currentTab.Some? ==> r == currentTab.value
  {
    if currentTab.Some? then currentTab.value else "null"
  }

  /** `isCurrentTab`: the item's url mentions the current tab, or it is the Dashboard item and no tab is set. */
  predicate IsCurrentTab(item: NavItem, currentTab: Option<string>) {
    Contains(item.url, "tab=" + TabText(currentTab)) || (item.title == "Dashboard" && !TruthyText(currentTab))
  }

  /** An item with sub-items renders as a collapsible, open by default when it is current; others have no such state. */
  function DefaultOpen(item: NavItem, currentTab: Option<string>): (r: Option<bool>)
    ensures r.Some? <==> |item.items| > 0
    ensures r.Some? ==> (r.value <==> IsCurrentTab(item, currentTab))
  {
    if |item.items| > 0 then Some(IsCurrentTab(item, currentTab)) else None
  }

  lemma ContainsConcatMiddle(a: string, t: string, b: string)
    ensures Contains(a + t + b, t)
    decreases |a|
  {
    if a == [] {
      assert (t + b)[..|t|] == t;
      assert a + t + b == t + b;
    } else {
      assert (a + t + b)[1..] == a[1..] + t + b;
      ContainsConcatMiddle(a[1..], t, b);
    }
  }

  /** An item whose url carries `tab=<value>` is current while that tab is selected. */
  lemma MatchingTabIsCurrent(title: string, prefix: string, tab: string, suffix: string, items: seq<NavLink>)
    ensures IsCurrentTab(NavItem(title, prefix + ("tab=" + tab) + suffix, items), Some(tab))
  {
    ContainsConcatMiddle(prefix, "tab=" + tab, suffix);
  }

  /** Without a tab parameter, the Dashboard item is current whatever its url. */
  lemma DashboardCurrentWithoutTab(url: string, items: seq<NavLink>)
    ensures IsCurrentTab(NavItem("Dashboard", url, items), None)
    ensures IsCurrentTab(NavItem("Dashboard", url, items), Some(""))
  {
  }

  /** Without a tab parameter, any other item is current exactly when its url holds the literal text "tab=null". */
  lemma NoTabMeansLiteralNull(item: NavItem)
    requires item.title != "Dashboard"
    ensures IsCurrentTab(item, None) <==> Contains(item.url, "tab=null")
  {
    assert "tab=" + TabText(None) == "tab=null";
  }

  /** The url every item of the admin sidebar links to. */
  const DashboardUrl: string := "/dashboard"

  /** The three items of the admin sidebar. */
  function SidebarItems(): (r: seq<NavItem>)
    ensures |r| == 3
    ensures r[0].title == "Overview" && r[1].title == "User Management" && r[2].title == "Savings Management"
    ensures forall item :: item in r ==> item.url == DashboardUrl && item.items == [] && item.title != "Dashboard"
  {
    [NavItem("Overview", DashboardUrl, []),
     NavItem("User Management", DashboardUrl, []),
     NavItem("Savings Management", DashboardUrl, [])]
  }

  /** An item linking to the bare dashboard url and not titled "Dashboard" is never current. */
  lemma DashboardLinkNeverCurrent(item: NavItem, currentTab: Option<string>)
    requires item.url == DashboardUrl && item.title != "Dashboard"
    ensures !IsCurrentTab(item, currentTab)
  {
    var needle := "tab=" + TabText(currentTab);
    assert needle[3] == '=';
    NotContainsMissingChar(DashboardUrl, needle, '=');
  }

  /**
   * None of the sidebar's items is ever current: their url has no '=', and
   * none of them is titled "Dashboard".
   */
  lemma SidebarNeverCurrent(currentTab: Option<string>)
    ensures forall item :: item in SidebarItems() ==> !IsCurrentTab(item, currentTab)
  {
    forall item | item in SidebarItems() ensures !IsCurrentTab(item, currentTab) {
      DashboardLinkNeverCurrent(item, currentTab);
    }
  }
}
