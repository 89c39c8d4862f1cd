/**
 * The application sidebar: the navigation entries, which link is
 * highlighted for the current path, and which submenus are expanded.
 */
module Sidebar {
  import opened Wrappers
  import opened Text
  import opened ListOps

  datatype NavChild = NavChild(name: string, href: string)

  /** A navigation entry; only entries with `children` get a submenu button. */
  datatype NavItem = NavItem(name: string, href: string, children: Option<seq<NavChild>>)

  /** `navigation`: the plain links above the divider. */
  const TopNavigation: seq<NavItem> := [
    NavItem("Customer Management", "/customer", None),
    NavItem("Credit", "/credit", None)
  ]

  /** `navigation2`. */
  const Navigation: seq<NavItem> := [
    NavItem("Product Management", "/products", Some([
      NavChild("Master Data", "/productsfjkd"),
      NavChild("Promotion Management", "/products/promotion")])),
    NavItem("User Management", "/user", None),
    NavItem("Order Management", "/orders", None),
    NavItem("Delivery Management", "/delivery", None)
  ]

  /**
   * `isActive(href)`: the path is the link itself or lies under it; a path
   * that merely starts with the same letters does not count, a `/` must
   * follow.
   */
  function IsActive(pathname: string, href: string): (b: bool)
    ensures b <==> pathname == href
                   || (|pathname| > |href| && pathname[..|href|] == href && pathname[|href|] == '/')
  {
    var prefix := href + "/";
    if StartsWith(pathname, prefix) then
      assert pathname[..|href|] == prefix[..|href|];
      true
    else
      pathname == href
  }

  /** The product entry is active on the promotion page but not on the "Master Data" link's path. */
  lemma ProductLinks()
    ensures IsActive("/products/promotion", "/products")
    ensures IsActive("/products", "/products")
    ensures !IsActive("/productsfjkd", "/products")
    ensures !IsActive("/products", "/productsfjkd")
  {
    assert "/productsfjkd"[9] != '/';
  }

  /** No path highlights both top links. */
  lemma TopLinksExclusive(pathname: string)
    ensures !(IsActive(pathname, TopNavigation[0].href) && IsActive(pathname, TopNavigation[1].href))
  {
    if IsActive(pathname, TopNavigation[0].href) {
      assert pathname[..9] == "/customer";
      assert pathname[2] == 'u';
    }
  }

  class AppSidebar {
    /** `usePathname()`, given. */
    const pathname: string
    var openMenus: seq<string>

    /** The sidebar as it first renders: the first entry's submenu is open. */
    constructor (pathname: string)
      ensures this.pathname == pathname
      ensures openMenus == ["Product Management"]
      ensures SubmenuShown(Navigation[0])
    {
      this.pathname := pathname;
      openMenus := [Navigation[0].name];
    }

    /** Whether an entry's submenu is rendered. */
    predicate SubmenuShown(item: NavItem)
      reads this
    {
      item.children.Some? && item.name in openMenus
    }

    /** `toggleMenu(name)`: an open menu closes (every copy removed), a closed one opens at the end. */
    method ToggleMenu(name: string)
      modifies this
      ensures openMenus == Toggle(old(openMenus), name)
      ensures name in openMenus <==> name !in old(openMenus)
    {
      if name in openMenus {
        openMenus := RemoveAll(openMenus, name);
      } else {
        openMenus := openMenus + [name];
      }
    }
  }

  /** Toggling a menu twice restores whether it is open. */
  lemma ToggleTwiceRestoresOpen(menus: seq<string>, name: string)
    ensures (name in Toggle(Toggle(menus, name), name)) == (name in menus)
    ensures name !in menus ==> Toggle(Toggle(menus, name), name) == menus
  {
    if name !in menus {
      ToggleTwiceAbsent(menus, name);
    }
  }
}
