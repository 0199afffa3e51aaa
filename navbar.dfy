/** The navigation bar: what a click on a section does, which section is highlighted,
    when the bar counts as scrolled, and where the login link is shown. */
module Navbar {
  import opened Text

  /** A top-level section (`NavItem`, without its drop-down links). */
  datatype NavItem = NavItem(name: string, id: string, path: string)

  /** `SECTIONS`. */
  const Sections: seq<NavItem> := [
    NavItem("首页", "showcase", "/#showcase"),
    NavItem("农机材料", "materials", "/materials"),
    NavItem("农机装备", "equipment", "/#equipment"),
    NavItem("实验测试", "experiments", "/experiments"),
    NavItem("仿真模拟", "simulation", "/simulation"),
    NavItem("性能评价", "performance", "/performance"),
    NavItem("案例库", "cases", "/cases"),
    NavItem("关于我们", "about", "/#about")
  ]

  /** What a click does: nothing, `navigate({ pathname: '/', hash: id })`, or
      `navigate(path)`. */
  datatype NavAction = NoOp | HashNav(hash: string) | PathNav(path: string)

  /** The item's page is the current one: the guards at the head of `handleNavClick`. */
  predicate OnOwnPage(item: NavItem, pathname: string)
  {
    || (item.id == "materials" && pathname == "/materials")
    || (item.id == "equipment" && (pathname == "/equipment" || pathname == "/parts"))
    || (item.id == "experiments" && pathname == "/experiments")
    || (item.id == "simulation" && pathname == "/simulation")
    || (item.id == "performance" && pathname == "/performance")
    || (item.id == "cases" && pathname == "/cases")
  }

  /** `handleNavClick`'s choice of navigation. */
  function HandleNavClick(item: NavItem, pathname: string): NavAction
  {
    if OnOwnPage(item, pathname) then NoOp
    else if StartsWith(item.path, "/#") then HashNav(item.id)
    else PathNav(item.path)
  }

  /** `handleNavClick`'s effect on the mobile menu: a click that navigates closes it on a
      narrow window. */
  function MenuOpenAfterClick(item: NavItem, pathname: string, innerWidth: int, isOpen: bool): bool
  {
    if OnOwnPage(item, pathname) then isOpen else if innerWidth < 768 then false else isOpen
  }

  /** A click on a section of the bar never navigates to the page already shown: a page
      section on its own path does nothing, and an anchor section goes to the landing
      page with its own id as the hash. */
  lemma NoSelfNavigation(item: NavItem, pathname: string)
    requires item in Sections
    ensures HandleNavClick(item, pathname) == PathNav(pathname) ==> false
    ensures HandleNavClick(item, pathname).HashNav? <==> StartsWith(item.path, "/#") && !OnOwnPage(item, pathname)
    ensures HandleNavClick(item, pathname).HashNav? ==> HandleNavClick(item, pathname).hash == item.id
    ensures HandleNavClick(item, pathname).PathNav? ==> HandleNavClick(item, pathname).path == item.path
  {
    assert "/materials"[1] != '#' && "/experiments"[1] != '#' && "/simulation"[1] != '#';
    assert "/performance"[1] != '#' && "/cases"[1] != '#';
  }

  /** On its own page a page section is a no-op wherever it is clicked from; the
      equipment section also on the parts page. */
  lemma NavClickExamples()
    ensures HandleNavClick(Sections[1], "/materials") == NoOp
    ensures HandleNavClick(Sections[1], "/cases") == PathNav("/materials")
    ensures HandleNavClick(Sections[2], "/parts") == NoOp
    ensures HandleNavClick(Sections[2], "/materials") == HashNav("equipment")
    ensures HandleNavClick(Sections[0], "/") == HashNav("showcase")
  {
    assert StartsWith("/#equipment", "/#") && StartsWith("/#showcase", "/#");
    assert "/materials"[1] != '#';
  }

  /** A desktop section is highlighted when the current path is its own. */
  predicate IsActive(item: NavItem, pathname: string)
  {
    pathname == item.path
  }

  /** A page section is highlighted exactly on the path whose clicks it ignores, and an
      anchor section, whose path holds `#`, is never highlighted on a real pathname. */
  lemma ActiveSpec(item: NavItem, pathname: string)
    requires item in Sections
    requires '#' !in pathname
    ensures IsActive(item, pathname) ==> HandleNavClick(item, pathname) == NoOp
    ensures StartsWith(item.path, "/#") ==> !IsActive(item, pathname)
  {
    if StartsWith(item.path, "/#") {
      assert item.path[1] == '#';
    }
  }

  /** The scroll listener's test. */
  predicate IsScrolled(scrollY: real)
  {
    scrollY > 20.0
  }

  /** The bar turns solid once the page has scrolled past 20 pixels and stays so further
      down; at exactly 20 it is still transparent. */
  lemma ScrolledSpec(y1: real, y2: real)
    ensures y1 <= y2 && IsScrolled(y1) ==> IsScrolled(y2)
    ensures !IsScrolled(20.0) && IsScrolled(20.5)
  {
  }

  /** A click that does nothing leaves the mobile menu as it was; one that navigates
      closes it on a window narrower than 768 pixels and leaves it otherwise. */
  lemma MenuSpec(item: NavItem, pathname: string, innerWidth: int, isOpen: bool)
    ensures HandleNavClick(item, pathname) == NoOp ==> MenuOpenAfterClick(item, pathname, innerWidth, isOpen) == isOpen
    ensures HandleNavClick(item, pathname) != NoOp ==>
              MenuOpenAfterClick(item, pathname, innerWidth, isOpen) == (isOpen && innerWidth >= 768)
  {
  }

  /** The login link (desktop and mobile) shows for a visitor who is not logged in,
      except on the sign-in and sign-up pages. */
  predicate ShowLoginLink(pathname: string, isLoggedIn: bool)
  {
    var isAuthPage := pathname == "/auth";
    var isRegisterPage := pathname == "/register";
    !isLoggedIn && !isAuthPage && !isRegisterPage
  }

  /** Logged out, the link is hidden on exactly two pages; logged in, it is never shown. */
  lemma LoginLinkSpec(pathname: string, isLoggedIn: bool)
    ensures !isLoggedIn ==> (!ShowLoginLink(pathname, isLoggedIn) <==> pathname in ["/auth", "/register"])
    ensures isLoggedIn ==> !ShowLoginLink(pathname, isLoggedIn)
  {
  }
}
