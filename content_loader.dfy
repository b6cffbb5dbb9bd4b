/**
 * The single-page content loader (`window.contentLoader`): it normalises a path, looks the
 * path up in the menu tree kept in browser storage, updates the page header and loads the
 * matching fragment into `#main-content`.
 *
 * The DOM nodes it writes are fields of `Loader`; a fragment fetch (`$.load`) and the script
 * load are given as boolean outcomes, and their callbacks run as part of the call.
 */
module ContentLoader {
  import opened Wrappers
  import opened Text

  /** One entry of the menu tree as stored under `localStorage['menus']`. */
  datatype MenuEntry = MenuEntry(id: int, name: string, url: string, icon: string, children: seq<MenuEntry>)

  // ---------------------------------------------------------------- path normalisation

  /** `path.split('#')[0]`: the text before the first `#`. */
  function BeforeHash(path: string): (r: string)
    ensures '#' !in r
    ensures StartsWith(path, r)
    ensures |r| < |path| ==> path[|r|] == '#'
  {
    path[..IndexOf(path, '#')]
  }

  /** The two normalisation steps at the top of `loadContent`. */
  function NormalizePath(path: string): (r: string)
    ensures SlashFree(r)
    ensures '#' !in r
    ensures Contains(BeforeHash(path), r)
  {
    var b := BeforeHash(path);
    var r := TrimSlashes(b);
    var i :| 0 <= i <= |b| - |r| && OccursAt(b, r, i);
    assert forall j :: 0 <= j < |r| ==> r[j] == b[i + j];
    r
  }

  /** A normalised path has no `/` at either end and normalising it again changes nothing. */
  lemma NormalizePathIdempotent(path: string)
    ensures NormalizePath(NormalizePath(path)) == NormalizePath(path)
  {
    var r := NormalizePath(path);
    assert IndexOf(r, '#') == |r|;
    assert BeforeHash(r) == r;
    TrimSlashesOfSlashFree(r);
  }

  /** A normalised path is never `/`: the `case '/'` label of the dispatch cannot be reached. */
  lemma NormalizedNeverSlash(path: string)
    ensures NormalizePath(path) != "/"
  {
  }

  /** The fragment and the boundary slashes are dropped: "/menu#foo/" becomes "menu". */
  lemma NormalizeDropsFragment()
    ensures NormalizePath("/menu#foo/") == "menu"
  {
    assert IndexOf("/menu#foo/", '#') == 5;
    assert BeforeHash("/menu#foo/") == "/menu";
    assert TrimLeadingSlashes("/menu") == "menu";
    assert TrimTrailingSlashes("menu") == "menu";
  }

  /** "/menu/" also becomes "menu"; "menu" itself is already normal. */
  lemma NormalizeDropsSlashes()
    ensures NormalizePath("/menu/") == "menu"
    ensures NormalizePath("menu") == "menu"
  {
    assert IndexOf("/menu/", '#') == 6;
    assert BeforeHash("/menu/") == "/menu/";
    assert TrimLeadingSlashes("/menu/") == "menu/";
    assert TrimTrailingSlashes("menu/") == "menu";
    assert IndexOf("menu", '#') == 4;
    assert BeforeHash("menu") == "menu";
    TrimSlashesOfSlashFree("menu");
  }

  // ---------------------------------------------------------------- reference definitions

  /** All entries of the forest, each node before its children and its children before its later siblings. */
  function PreOrder(menus: seq<MenuEntry>): (r: seq<MenuEntry>)
    ensures |menus| <= |r|
    ensures forall k :: 0 <= k < |menus| ==> menus[k] in r
    decreases menus
  {
    if menus == [] then [] else [menus[0]] + PreOrder(menus[0].children) + PreOrder(menus[1..])
  }

  /** Index of the first entry satisfying `p`, or `|xs|`. */
  function FirstIndex(xs: seq<MenuEntry>, p: MenuEntry -> bool): (r: nat)
    ensures r <= |xs|
    ensures r < |xs| ==> p(xs[r])
    ensures forall j :: 0 <= j < r ==> !p(xs[j])
  {
    if xs == [] then 0 else if p(xs[0]) then 0 else 1 + FirstIndex(xs[1..], p)
  }

  /** The first entry satisfying `p`, if there is one. */
  function FirstOf(xs: seq<MenuEntry>, p: MenuEntry -> bool): (r: Option<MenuEntry>)
    ensures r.None? <==> forall j :: 0 <= j < |xs| ==> !p(xs[j])
    ensures r.Some? ==> p(r.value) && r.value in xs
  {
    var i := FirstIndex(xs, p);
    if i < |xs| then Some(xs[i]) else None
  }

  /** Searching a concatenation searches the left part first. */
  lemma {:induction false} FirstIndexConcat(a: seq<MenuEntry>, b: seq<MenuEntry>, p: MenuEntry -> bool)
    ensures FirstIndex(a + b, p) == if FirstIndex(a, p) < |a| then FirstIndex(a, p) else |a| + FirstIndex(b, p)
  {
    if a != [] {
      assert (a + b)[0] == a[0];
      assert (a + b)[1..] == a[1..] + b;
      if !p(a[0]) {
        FirstIndexConcat(a[1..], b, p);
      }
    } else {
      assert a + b == b;
    }
  }

  lemma FirstOfConcat(a: seq<MenuEntry>, b: seq<MenuEntry>, p: MenuEntry -> bool)
    ensures FirstOf(a + b, p) == if FirstOf(a, p).Some? then FirstOf(a, p) else FirstOf(b, p)
  {
    FirstIndexConcat(a, b, p);
    var i := FirstIndex(a, p);
    if i >= |a| {
      assert (a + b)[|a| + FirstIndex(b, p)..] == b[FirstIndex(b, p)..];
    }
  }

  // ---------------------------------------------------------------- findMenuByPath

  /** An entry answers for `path` when its url is non-empty and equals `path` or `"/" + path`. */
  predicate Matches(m: MenuEntry, path: string) {
    m.url != "" && (m.url == path || m.url == "/" + path)
  }

  /** `findMenuByPath`: depth-first search with early return. */
  function FindMenuByPath(menus: seq<MenuEntry>, path: string): (r: Option<MenuEntry>)
    ensures r.Some? ==> Matches(r.value, path)
    decreases menus
  {
    if menus == [] then None
    else if Matches(menus[0], path) then Some(menus[0])
    else
      var found := if |menus[0].children| > 0 then FindMenuByPath(menus[0].children, path) else None;
      if found.Some? then found else FindMenuByPath(menus[1..], path)
  }

  /** `findMenuByPath` returns the first matching entry in pre-order, and null when none matches. */
  lemma {:induction false} FindMenuByPathIsFirstInPreOrder(menus: seq<MenuEntry>, path: string)
    ensures FindMenuByPath(menus, path) == FirstOf(PreOrder(menus), m => Matches(m, path))
    decreases menus
  {
    var p := (m: MenuEntry) => Matches(m, path);
    if menus != [] {
      var m := menus[0];
      var c := PreOrder(m.children);
      var rest := PreOrder(menus[1..]);
      FindMenuByPathIsFirstInPreOrder(m.children, path);
      FindMenuByPathIsFirstInPreOrder(menus[1..], path);
      assert PreOrder(menus) == ([m] + c) + rest;
      FirstOfConcat([m] + c, rest, p);
      FirstOfConcat([m], c, p);
      if |m.children| == 0 {
        assert c == [];
      }
    }
  }

  /** An entry with an empty url never matches. */
  lemma EmptyUrlNeverMatches(m: MenuEntry, path: string)
    requires m.url == ""
    ensures !Matches(m, path)
  {
  }

  /** The empty path is answered by exactly the entries whose url is `/`. */
  lemma MatchesEmptyPath(m: MenuEntry)
    ensures Matches(m, "") <==> m.url == "/"
  {
  }

  // ---------------------------------------------------------------- findParentMenu

  predicate HasChildWithId(m: MenuEntry, childId: int) {
    exists k :: 0 <= k < |m.children| && m.children[k].id == childId
  }

  /** `findParentMenu`: a node's direct children are scanned before its subtree is searched. */
  function FindParentMenu(menus: seq<MenuEntry>, childId: int): (r: Option<MenuEntry>)
    ensures r.Some? ==> HasChildWithId(r.value, childId)
    decreases menus
  {
    if menus == [] then None
    else if HasChildWithId(menus[0], childId) then Some(menus[0])
    else
      var found := FindParentMenu(menus[0].children, childId);
      if found.Some? then found else FindParentMenu(menus[1..], childId)
  }

  /** `findParentMenu` returns the first entry in pre-order having the id as a direct child. */
  lemma {:induction false} FindParentMenuIsFirstInPreOrder(menus: seq<MenuEntry>, childId: int)
    ensures FindParentMenu(menus, childId) == FirstOf(PreOrder(menus), m => HasChildWithId(m, childId))
    decreases menus
  {
    var p := (m: MenuEntry) => HasChildWithId(m, childId);
    if menus != [] {
      var m := menus[0];
      var c := PreOrder(m.children);
      var rest := PreOrder(menus[1..]);
      FindParentMenuIsFirstInPreOrder(m.children, childId);
      FindParentMenuIsFirstInPreOrder(menus[1..], childId);
      assert PreOrder(menus) == ([m] + c) + rest;
      FirstOfConcat([m] + c, rest, p);
      FirstOfConcat([m], c, p);
    }
  }

  /** The ids of a list of entries, in order. */
  function IdSeq(xs: seq<MenuEntry>): (r: seq<int>)
    ensures |r| == |xs|
  {
    if xs == [] then [] else [xs[0].id] + IdSeq(xs[1..])
  }

  lemma {:induction false} IdSeqConcat(a: seq<MenuEntry>, b: seq<MenuEntry>)
    ensures IdSeq(a + b) == IdSeq(a) + IdSeq(b)
  {
    if a == [] {
      assert a + b == b;
    } else {
      assert (a + b)[1..] == a[1..] + b;
      IdSeqConcat(a[1..], b);
    }
  }

  /** The id of the k-th entry is the k-th id. */
  lemma {:induction false} IdSeqAt(xs: seq<MenuEntry>, k: nat)
    requires k < |xs|
    ensures IdSeq(xs)[k] == xs[k].id
  {
    if k > 0 {
      IdSeqAt(xs[1..], k - 1);
    }
  }

  /** The ids of every entry below the top level. */
  function NestedIds(menus: seq<MenuEntry>): seq<int>
    decreases menus
  {
    if menus == [] then [] else IdSeq(PreOrder(menus[0].children)) + NestedIds(menus[1..])
  }

  /** Every entry of the forest is either a top-level entry or a nested one. */
  lemma {:induction false} PreOrderIds(menus: seq<MenuEntry>)
    ensures multiset(IdSeq(PreOrder(menus))) == multiset(IdSeq(menus)) + multiset(NestedIds(menus))
    decreases menus
  {
    if menus != [] {
      var m := menus[0];
      var c := PreOrder(m.children);
      var rest := PreOrder(menus[1..]);
      PreOrderIds(menus[1..]);
      IdSeqConcat([m] + c, rest);
      IdSeqConcat([m], c);
      IdSeqConcat([m], menus[1..]);
      assert menus == [m] + menus[1..];
      assert IdSeq(PreOrder(menus)) == [m.id] + IdSeq(c) + IdSeq(rest);
      assert IdSeq(menus) == [m.id] + IdSeq(menus[1..]);
      assert NestedIds(menus) == IdSeq(c) + NestedIds(menus[1..]);
      calc {
        multiset(IdSeq(PreOrder(menus)));
        multiset([m.id]) + multiset(IdSeq(c)) + multiset(IdSeq(rest));
        multiset([m.id]) + multiset(IdSeq(c)) + (multiset(IdSeq(menus[1..])) + multiset(NestedIds(menus[1..])));
        (multiset([m.id]) + multiset(IdSeq(menus[1..]))) + (multiset(IdSeq(c)) + multiset(NestedIds(menus[1..])));
        multiset(IdSeq(menus)) + multiset(NestedIds(menus));
      }
    }
  }

  /** Only an id held below the top level can have a parent. */
  lemma {:induction false} ParentOnlyForNestedIds(menus: seq<MenuEntry>, childId: int)
    requires FindParentMenu(menus, childId).Some?
    ensures childId in NestedIds(menus)
    decreases menus
  {
    var m := menus[0];
    if HasChildWithId(m, childId) {
      var k :| 0 <= k < |m.children| && m.children[k].id == childId;
      IdSeqAt(m.children, k);
      assert childId in multiset(IdSeq(m.children));
      PreOrderIds(m.children);
      assert childId in multiset(IdSeq(PreOrder(m.children)));
    } else if FindParentMenu(m.children, childId).Some? {
      ParentOnlyForNestedIds(m.children, childId);
      PreOrderIds(m.children);
      assert childId in multiset(NestedIds(m.children));
      assert childId in multiset(IdSeq(PreOrder(m.children)));
    } else {
      ParentOnlyForNestedIds(menus[1..], childId);
    }
  }

  /** No entry of the forest shares its id with another. */
  ghost predicate UniqueIds(menus: seq<MenuEntry>) {
    forall x :: multiset(IdSeq(PreOrder(menus)))[x] <= 1
  }

  /** An id that is absent from the forest, or at its top level when ids are unique, has no parent. */
  lemma NoParentAtRootOrAbsent(menus: seq<MenuEntry>, childId: int)
    requires childId !in IdSeq(PreOrder(menus)) || (UniqueIds(menus) && childId in IdSeq(menus))
    ensures FindParentMenu(menus, childId) == None
  {
    PreOrderIds(menus);
    var total := multiset(IdSeq(PreOrder(menus)));
    assert total[childId] == multiset(IdSeq(menus))[childId] + multiset(NestedIds(menus))[childId];
    if FindParentMenu(menus, childId).Some? {
      ParentOnlyForNestedIds(menus, childId);
      assert false;
    }
  }

  // ---------------------------------------------------------------- dispatch

  /** What `loadContent` loads for a normalised path. */
  datatype Route = Dashboard | MenuGrid | Component(file: string)

  /** `loadDefaultContent(path)` fetches `components${path}.html`. */
  function ComponentFile(path: string): (r: string)
    ensures StartsWith(r, "components") && EndsWith(r, ".html")
    ensures |r| == |path| + 15
  {
    "components" + path + ".html"
  }

  /** The switch of `loadContent` over the normalised path. */
  function Dispatch(menus: seq<MenuEntry>, path: string): (r: Route)
    ensures r == MenuGrid <==> path == "menu" && FindMenuByPath(menus, path).Some?
    ensures r == Dashboard <==> (path == "" || path == "/") && FindMenuByPath(menus, path).Some?
    ensures r.Component? ==> r.file == ComponentFile("/" + path)
  {
    if FindMenuByPath(menus, path).Some? then
      if path == "" || path == "/" then Dashboard
      else if path == "menu" then MenuGrid
      else Component(ComponentFile("/" + path))
    else Component(ComponentFile("/" + path))
  }

  /** After normalisation the dashboard is reached exactly when some entry has url `/`. */
  lemma DashboardIffRootEntry(menus: seq<MenuEntry>, raw: string)
    ensures Dispatch(menus, NormalizePath(raw)) == Dashboard
        <==> NormalizePath(raw) == "" && exists j :: 0 <= j < |PreOrder(menus)| && PreOrder(menus)[j].url == "/"
  {
    var path := NormalizePath(raw);
    FindMenuByPathIsFirstInPreOrder(menus, path);
    NormalizedNeverSlash(raw);
    if path == "" {
      var xs := PreOrder(menus);
      forall j | 0 <= j < |xs|
        ensures Matches(xs[j], path) <==> xs[j].url == "/"
      {
        MatchesEmptyPath(xs[j]);
      }
    }
  }

  // ---------------------------------------------------------------- the loader and its page

  /** What `#main-content` shows. */
  datatype Content = Blank | Fragment(file: string) | Alert(message: string)

  /** `window.menuPageInstance`: a menu page and the grid it owns, if any. */
  datatype MenuPage = MenuPage(grid: Option<nat>)

  const MenuScript: string := "assets/js/pages/menu.js"

  /** `new MenuPage()` with DevExtreme loaded: `initialize` builds the grid only when `#menuGrid` exists. */
  function MenuGridPage(content: Content, newGrid: nat): MenuPage {
    MenuPage(if content == Fragment("components/menu.html") then Some(newGrid) else None)
  }

  function Count(xs: seq<string>, x: string): nat {
    if xs == [] then 0 else (if xs[0] == x then 1 else 0) + Count(xs[1..], x)
  }

  /** `$('script[src=x]').remove()`. */
  function Without(xs: seq<string>, x: string): (r: seq<string>)
    ensures Count(r, x) == 0
    ensures forall y :: y != x ==> Count(r, y) == Count(xs, y)
  {
    if xs == [] then []
    else if xs[0] == x then Without(xs[1..], x)
    else
      var w := Without(xs[1..], x);
      assert ([xs[0]] + w)[1..] == w;
      [xs[0]] + w
  }

  lemma {:induction false} CountAppend(xs: seq<string>, ys: seq<string>, x: string)
    ensures Count(xs + ys, x) == Count(xs, x) + Count(ys, x)
  {
    if xs == [] {
      assert xs + ys == ys;
    } else {
      assert (xs + ys)[1..] == xs[1..] + ys;
      CountAppend(xs[1..], ys, x);
    }
  }

  /** The page around the loader: header, content area, the menu-page slot and the body scripts. */
  class Loader {
    /** `JSON.parse(localStorage.getItem('menus') || '[]')`. */
    var menus: seq<MenuEntry>
    var pageTitle: string
    var breadcrumbParent: string
    var breadcrumbCurrent: string
    var statsVisible: bool
    var mainContent: Content
    var menuPageInstance: Option<MenuPage>
    /** Grids disposed so far, oldest first. */
    var disposedGrids: seq<nat>
    /** `src` of each `<script>` in the body, in document order. */
    var bodyScripts: seq<string>

    constructor(stored: seq<MenuEntry>)
      ensures menus == stored && mainContent == Blank && menuPageInstance == None
      ensures disposedGrids == [] && bodyScripts == []
      ensures pageTitle == "" && breadcrumbParent == "" && breadcrumbCurrent == "" && !statsVisible
    {
      menus := stored;
      pageTitle, breadcrumbParent, breadcrumbCurrent := "", "", "";
      statsVisible := false;
      mainContent := Blank;
      menuPageInstance := None;
      disposedGrids, bodyScripts := [], [];
    }

    /** `updatePageHeader`. */
    method UpdatePageHeader(menu: MenuEntry)
      modifies this
      ensures pageTitle == menu.name && breadcrumbCurrent == menu.name
      ensures breadcrumbParent == match FindParentMenu(menus, menu.id)
                                    case Some(p) => p.name
                                    case None => "Home"
      ensures statsVisible <==> menu.url == "/"
      ensures menus == old(menus) && mainContent == old(mainContent)
      ensures menuPageInstance == old(menuPageInstance) && disposedGrids == old(disposedGrids)
      ensures bodyScripts == old(bodyScripts)
    {
      pageTitle := menu.name;
      var parent := FindParentMenu(menus, menu.id);
      breadcrumbParent := if parent.Some? then parent.value.name else "Home";
      breadcrumbCurrent := menu.name;
      statsVisible := menu.url == "/";
    }

    /** `loadDashboard`: shows the stats panel and loads the dashboard fragment. */
    method LoadDashboard(fetchOk: bool)
      modifies this
      ensures statsVisible
      ensures mainContent == if fetchOk then Fragment("components/dashboard.html") else old(mainContent)
      ensures menus == old(menus) && pageTitle == old(pageTitle)
      ensures breadcrumbParent == old(breadcrumbParent) && breadcrumbCurrent == old(breadcrumbCurrent)
      ensures menuPageInstance == old(menuPageInstance) && disposedGrids == old(disposedGrids)
      ensures bodyScripts == old(bodyScripts)
    {
      statsVisible := true;
      if fetchOk {
        mainContent := Fragment("components/dashboard.html");
      }
    }

    /**
     * `loadMenuGrid`: the previous menu page (and its grid) is disposed and the slot emptied,
     * then the fragment is loaded; its completion callback, which runs on success and on
     * failure alike, replaces every menu.js tag by a single new one. When that script loads
     * and DevExtreme is present, the script fills the empty slot with a new menu page, whose
     * grid (`newGrid`) exists only when `#menuGrid` is on the page, that is, when the menu
     * fragment is the main content.
     */
    method LoadMenuGrid(fetchOk: bool, scriptOk: bool, devExpress: bool, newGrid: nat)
      modifies this
      ensures menuPageInstance == if scriptOk && devExpress then Some(MenuGridPage(mainContent, newGrid)) else None
      ensures disposedGrids == old(match menuPageInstance
                                   case Some(MenuPage(Some(g))) => disposedGrids + [g]
                                   case _ => disposedGrids)
      ensures bodyScripts == Without(old(bodyScripts), MenuScript) + [MenuScript]
      ensures Count(bodyScripts, MenuScript) == 1
      ensures forall s :: s != MenuScript ==> Count(bodyScripts, s) == Count(old(bodyScripts), s)
      ensures mainContent == if !scriptOk then Alert("Failed to load menu component")
                             else if fetchOk then Fragment("components/menu.html")
                             else old(mainContent)
      ensures menus == old(menus) && pageTitle == old(pageTitle) && statsVisible == old(statsVisible)
      ensures breadcrumbParent == old(breadcrumbParent) && breadcrumbCurrent == old(breadcrumbCurrent)
    {
      if menuPageInstance.Some? {
        if menuPageInstance.value.grid.Some? {
          disposedGrids := disposedGrids + [menuPageInstance.value.grid.value];
        }
        menuPageInstance := None;
      }
      if fetchOk {
        mainContent := Fragment("components/menu.html");
      }
      var kept := Without(bodyScripts, MenuScript);
      bodyScripts := kept + [MenuScript];
      CountAppend(kept, [MenuScript], MenuScript);
      forall s | s != MenuScript
        ensures Count(bodyScripts, s) == Count(old(bodyScripts), s)
      {
        CountAppend(kept, [MenuScript], s);
      }
      if !scriptOk {
        mainContent := Alert("Failed to load menu component");
      } else if devExpress && menuPageInstance.None? {
        menuPageInstance := Some(MenuGridPage(mainContent, newGrid));
      }
    }

    /** `loadDefaultContent(path)`: loads `components${path}.html`, or shows an alert on error. */
    method LoadDefaultContent(path: string, fetchOk: bool)
      modifies this
      ensures mainContent == if fetchOk then Fragment(ComponentFile(path)) else Alert("Content not found")
      ensures menus == old(menus) && pageTitle == old(pageTitle) && statsVisible == old(statsVisible)
      ensures breadcrumbParent == old(breadcrumbParent) && breadcrumbCurrent == old(breadcrumbCurrent)
      ensures menuPageInstance == old(menuPageInstance) && disposedGrids == old(disposedGrids)
      ensures bodyScripts == old(bodyScripts)
    {
      if fetchOk {
        mainContent := Fragment(ComponentFile(path));
      } else {
        mainContent := Alert("Content not found");
      }
    }

    /**
     * `loadContent(raw)`: the header changes only when a menu entry answers for the normalised
     * path, and the content follows `Dispatch`.
     */
    method LoadContent(raw: string, fetchOk: bool, scriptOk: bool, devExpress: bool, newGrid: nat)
      modifies this
      ensures menus == old(menus)
      ensures var found := FindMenuByPath(menus, NormalizePath(raw));
              if found.Some? then
                pageTitle == found.value.name && breadcrumbCurrent == found.value.name
                && breadcrumbParent == (match FindParentMenu(menus, found.value.id)
                                        case Some(p) => p.name
                                        case None => "Home")
                && (Dispatch(menus, NormalizePath(raw)) != Dashboard ==> (statsVisible <==> found.value.url == "/"))
              else
                pageTitle == old(pageTitle) && breadcrumbCurrent == old(breadcrumbCurrent)
                && breadcrumbParent == old(breadcrumbParent) && statsVisible == old(statsVisible)
      ensures match Dispatch(menus, NormalizePath(raw))
              case Dashboard =>
                statsVisible && mainContent == (if fetchOk then Fragment("components/dashboard.html") else old(mainContent))
                && menuPageInstance == old(menuPageInstance) && bodyScripts == old(bodyScripts)
                && disposedGrids == old(disposedGrids)
              case MenuGrid =>
                menuPageInstance == (if scriptOk && devExpress then Some(MenuGridPage(mainContent, newGrid)) else None)
                && Count(bodyScripts, MenuScript) == 1
                && bodyScripts == Without(old(bodyScripts), MenuScript) + [MenuScript]
                && disposedGrids == old(match menuPageInstance
                                        case Some(MenuPage(Some(g))) => disposedGrids + [g]
                                        case _ => disposedGrids)
                && mainContent == (if !scriptOk then Alert("Failed to load menu component")
                                   else if fetchOk then Fragment("components/menu.html") else old(mainContent))
              case Component(file) =>
                mainContent == (if fetchOk then Fragment(file) else Alert("Content not found"))
                && menuPageInstance == old(menuPageInstance) && bodyScripts == old(bodyScripts)
                && disposedGrids == old(disposedGrids)
    {
      var path := NormalizePath(raw);
      var currentMenu := FindMenuByPath(menus, path);
      if currentMenu.Some? {
        UpdatePageHeader(currentMenu.value);
        if path == "" || path == "/" {
          LoadDashboard(fetchOk);
        } else if path == "menu" {
          LoadMenuGrid(fetchOk, scriptOk, devExpress, newGrid);
        } else {
          LoadDefaultContent("/" + path, fetchOk);
        }
      } else {
        LoadDefaultContent("/" + path, fetchOk);
      }
    }
  }

  /**
   * Opening the menu page twice: the first visit leaves a page that owns grid 7, and the
   * second visit disposes exactly that grid before its own page takes grid 8. A failed
   * script on a third visit leaves an alert, an empty slot and still one menu.js tag.
   */
  method ReloadDisposesGrid() returns (disposed: seq<nat>, slot: Option<MenuPage>, failed: Option<MenuPage>, content: Content, tags: nat)
    ensures disposed == [7] && slot == Some(MenuPage(Some(8)))
    ensures failed == None && content == Alert("Failed to load menu component") && tags == 1
  {
    var loader := new Loader([]);
    loader.LoadMenuGrid(true, true, true, 7);
    assert loader.menuPageInstance == Some(MenuPage(Some(7)));
    loader.LoadMenuGrid(true, true, true, 8);
    disposed, slot := loader.disposedGrids, loader.menuPageInstance;
    loader.LoadMenuGrid(true, false, true, 9);
    failed, content, tags := loader.menuPageInstance, loader.mainContent, Count(loader.bodyScripts, MenuScript);
  }
}
