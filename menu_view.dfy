/**
 * The sidebar helpers of the frontend: the icon-name table, the active-link test and the
 * rendering of the top-level menu entries as nav items appended to a container.
 */
module MenuView {
  import opened Text
  import opened ContentLoader

  /** `menuIcons`: stored icon keys and the icon names they stand for. */
  const MenuIcons: map<string, string> := map[
    "dashboard" := "tv-2",
    "shopping-cart" := "cart",
    "box" := "box-2",
    "folder" := "folder-17",
    "users" := "single-02",
    "chart-bar" := "chart-bar-32"
  ]

  /** `getMenuIcon`: the table's name for a known key (all of them non-empty), the key itself otherwise. */
  function GetMenuIcon(icon: string): (r: string)
    ensures icon in MenuIcons ==> r == MenuIcons[icon] && r != ""
    ensures icon !in MenuIcons ==> r == icon
  {
    if icon in MenuIcons && MenuIcons[icon] != "" then MenuIcons[icon] else icon
  }

  /** The six known keys and their names. */
  lemma KnownIcons()
    ensures GetMenuIcon("dashboard") == "tv-2"
    ensures GetMenuIcon("shopping-cart") == "cart"
    ensures GetMenuIcon("box") == "box-2"
    ensures GetMenuIcon("folder") == "folder-17"
    ensures GetMenuIcon("users") == "single-02"
    ensures GetMenuIcon("chart-bar") == "chart-bar-32"
    ensures |MenuIcons| == 6
  {
  }

  /** No icon name is itself a key, so mapping an already mapped icon changes nothing. */
  lemma GetMenuIconIdempotent(icon: string)
    ensures GetMenuIcon(GetMenuIcon(icon)) == GetMenuIcon(icon)
  {
    if icon in MenuIcons {
      var r := MenuIcons[icon];
      assert r in MenuIcons.Values;
      assert r !in MenuIcons by {
        assert MenuIcons.Keys == {"dashboard", "shopping-cart", "box", "folder", "users", "chart-bar"};
        assert MenuIcons.Values == {"tv-2", "cart", "box-2", "folder-17", "single-02", "chart-bar-32"};
      }
    }
  }

  /** `isMenuActive(menuUrl)` given `window.location.pathname`. */
  predicate IsMenuActive(pathname: string, menuUrl: string) {
    EndsWith(pathname, menuUrl)
  }

  /** An entry with an empty url is active on every page; a url longer than the pathname never is. */
  lemma IsMenuActiveBounds(pathname: string, menuUrl: string)
    ensures menuUrl == "" ==> IsMenuActive(pathname, menuUrl)
    ensures |menuUrl| > |pathname| ==> !IsMenuActive(pathname, menuUrl)
    ensures IsMenuActive(pathname, menuUrl) <==> exists p :: pathname == p + menuUrl
  {
    if IsMenuActive(pathname, menuUrl) {
      var p := pathname[..|pathname| - |menuUrl|];
      assert pathname == p + menuUrl;
    }
    if exists p :: pathname == p + menuUrl {
      var p :| pathname == p + menuUrl;
      assert pathname[|pathname| - |menuUrl|..] == menuUrl;
    }
  }

  /** One `<li class="nav-item">`: the link target, the `<i>` class and the link text. */
  datatype NavItem = NavItem(href: string, iconClass: string, text: string)

  /** The item written for one entry; the stored icon key is used as is, not through the table. */
  function NavItemOf(m: MenuEntry): NavItem {
    NavItem(m.url, "ni ni-" + m.icon + " text-primary", m.name)
  }

  /** The items `renderMenu` appends for a list of entries: one per top-level entry, in order. */
  function NavItems(menus: seq<MenuEntry>): (r: seq<NavItem>)
    ensures |r| == |menus|
  {
    if menus == [] then [] else NavItems(menus[..|menus| - 1]) + [NavItemOf(menus[|menus| - 1])]
  }

  /** Item k is rendered from entry k; children play no part. */
  lemma {:induction false} NavItemsAt(menus: seq<MenuEntry>, k: nat)
    requires k < |menus|
    ensures NavItems(menus)[k] == NavItemOf(menus[k])
    ensures NavItems(menus)[k].href == menus[k].url && NavItems(menus)[k].text == menus[k].name
  {
    if k < |menus| - 1 {
      NavItemsAt(menus[..|menus| - 1], k);
    }
  }

  /** Rendering two lists one after the other renders their concatenation. */
  lemma {:induction false} NavItemsConcat(a: seq<MenuEntry>, b: seq<MenuEntry>)
    ensures NavItems(a + b) == NavItems(a) + NavItems(b)
    decreases |b|
  {
    if b == [] {
      assert a + b == a;
    } else {
      var b' := b[..|b| - 1];
      assert (a + b)[..|a + b| - 1] == a + b';
      NavItemsConcat(a, b');
    }
  }

  /** The jQuery container a menu is rendered into. */
  class Container {
    var items: seq<NavItem>

    constructor()
      ensures items == []
    {
      items := [];
    }
  }

  /** `renderMenu(menus, container)`: appends one item per entry, in `forEach` order. */
  method RenderMenu(menus: seq<MenuEntry>, container: Container)
    modifies container
    ensures container.items == old(container.items) + NavItems(menus)
  {
    var i := 0;
    while i < |menus|
      invariant 0 <= i <= |menus|
      invariant container.items == old(container.items) + NavItems(menus[..i])
    {
      assert menus[..i + 1][..i] == menus[..i];
      container.items := container.items + [NavItemOf(menus[i])];
      i := i + 1;
    }
    assert menus[..i] == menus;
  }
}
