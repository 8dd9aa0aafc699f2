/** The side navigation. An item is highlighted when the current path is
    its own route, by a plain string-prefix test, except that the dashboard
    route `/` must match exactly. The sidebar does not own its collapsed
    flag: it asks the layout to change it. */
module Sidebar {
  import opened JsValues
  import opened JsStrings

  datatype MenuItem = MenuItem(id: string, labelKey: string, path: string)

  const DashboardItem: MenuItem := MenuItem("sidebar-dashboard", "sidebar.dashboard", "/")
  const ProfileItem: MenuItem := MenuItem("sidebar-profile", "sidebar.profile", "/profile")
  const NotificationsItem: MenuItem := MenuItem("sidebar-notifications", "sidebar.notifications", "/notifications")
  const SettingsItem: MenuItem := MenuItem("sidebar-settings", "sidebar.settings", "/profile/edit")

  const MenuItems: seq<MenuItem> := [DashboardItem, ProfileItem, NotificationsItem, SettingsItem]

  function IsActive(pathname: string, path: string): (r: bool)
    ensures path == "/" ==> (r <==> pathname == "/")
    ensures path != "/" ==> (r <==> StartsWith(pathname, path))
  {
    if path == "/" && pathname != "/" then false
    else StartsWith(pathname, path)
  }

  /** The highlighted items among `items`, in menu order. */
  function ActiveItems(pathname: string, items: seq<MenuItem>): (r: seq<MenuItem>)
    ensures |r| <= |items|
    ensures forall x :: x in r <==> x in items && IsActive(pathname, x.path)
  {
    if |items| == 0 then []
    else
      var rest := ActiveItems(pathname, items[1..]);
      assert forall x :: x in items <==> x == items[0] || x in items[1..];
      if IsActive(pathname, items[0].path) then [items[0]] + rest else rest
  }

  /** On the settings page both the profile and the settings items are lit;
      the dashboard and notifications items are not. */
  lemma SettingsLightsProfileToo()
    ensures IsActive("/profile/edit", ProfileItem.path) && IsActive("/profile/edit", SettingsItem.path)
    ensures !IsActive("/profile/edit", DashboardItem.path) && !IsActive("/profile/edit", NotificationsItem.path)
  {
    assert "/profile/edit"[..|"/profile"|] == "/profile";
  }

  /** The prefix test is textual: any path that merely begins with
      `/profile` lights the profile item. */
  lemma ProfilePrefixIsTextual(suffix: string)
    ensures IsActive("/profile" + suffix, ProfileItem.path)
  {
    assert ("/profile" + suffix)[..|"/profile"|] == "/profile";
  }

  /** The dashboard item is lit only on `/`, and then nothing else is. */
  lemma DashboardExact(pathname: string)
    ensures IsActive(pathname, DashboardItem.path) <==> pathname == "/"
    ensures pathname == "/" ==> forall j :: 1 <= j < |MenuItems| ==> !IsActive(pathname, MenuItems[j].path)
  {
  }

  /** Requests to the layout: the toggle button asks for the opposite state;
      the backdrop exists only while expanded and asks to collapse. */
  datatype SidebarEvent = ToggleClicked | BackdropClicked | ItemClicked(item: MenuItem) | LogoutClicked

  datatype SidebarEffect = SidebarEffect(collapseRequest: Option<bool>, navigateTo: Option<string>, logout: bool)

  function OnEvent(isCollapsed: bool, e: SidebarEvent): (r: SidebarEffect)
    ensures e == ToggleClicked ==> r.collapseRequest == Some(!isCollapsed)
    ensures e == BackdropClicked ==> r.collapseRequest == (if isCollapsed then None else Some(true))
    ensures e.ItemClicked? ==> r.navigateTo == Some(e.item.path) && r.collapseRequest.None?
    ensures r.logout <==> e == LogoutClicked
  {
    match e
    case ToggleClicked => SidebarEffect(Some(!isCollapsed), None, false)
    case BackdropClicked => SidebarEffect(if isCollapsed then None else Some(true), None, false)
    case ItemClicked(item) => SidebarEffect(None, Some(item.path), false)
    case LogoutClicked => SidebarEffect(None, None, true)
  }

  /** Two toggles in a row ask for the state the sidebar started in. */
  lemma ToggleTwiceRestores(isCollapsed: bool)
    ensures OnEvent(OnEvent(isCollapsed, ToggleClicked).collapseRequest.value, ToggleClicked).collapseRequest == Some(isCollapsed)
  {
  }
}
