/**
 * The authentication handlers. `Login` checks the credentials, asks for a token and the
 * role's menus, and rebuilds a menu hierarchy by ranging over a map of responses whose
 * values it rewrites while ranging. Go leaves the order of a map range unspecified; here it is
 * a parameter that names every key exactly once. The JWT functions and the menu service are
 * function parameters.
 */
module AuthHandler {
  import opened Wrappers
  import opened Text
  import opened Http
  import opened UserService
  import opened MenuHandler
  import opened UserHandler
  import opened MapOrder

  datatype LoginRequest = LoginRequest(email: string, password: string)

  datatype LoginResponse = LoginResponse(token: string, user: UserResponse, menus: seq<MenuResponse>)

  // ---------------------------------------------------------------- the first pass

  /** The ids of a list of menus. */
  function MenuIds(menus: seq<MenuTree>): (ids: set<int>)
    ensures forall i :: 0 <= i < |menus| ==> menus[i].id in ids
  {
    if menus == [] then {} else MenuIds(menus[..|menus| - 1]) + {menus[|menus| - 1].id}
  }

  /** A map of responses in which every entry sits under its own id. */
  predicate WellKeyed(m: map<int, MenuResponse>) {
    forall k :: k in m ==> m[k].id == k
  }

  /** `menuMap` after the first loop: each menu's response under its id. */
  function FirstPass(menus: seq<MenuTree>): (m: map<int, MenuResponse>)
    ensures m.Keys == MenuIds(menus)
    ensures WellKeyed(m)
  {
    if menus == [] then map[] else
      var last := menus[|menus| - 1];
      FirstPass(menus[..|menus| - 1])[last.id := ToMenuResponse(last)]
  }

  /** Of several menus with one id, the last one in the list is the one kept. */
  lemma {:induction false} FirstPassKeepsLast(menus: seq<MenuTree>, i: nat)
    requires i < |menus|
    requires forall j :: i < j < |menus| ==> menus[j].id != menus[i].id
    ensures FirstPass(menus)[menus[i].id] == ToMenuResponse(menus[i])
  {
    if i < |menus| - 1 {
      FirstPassKeepsLast(menus[..|menus| - 1], i);
    }
  }

  // ---------------------------------------------------------------- the second pass

  /** The state of the second loop: `menuMap` and `rootMenus`. */
  datatype HState = HState(menuMap: map<int, MenuResponse>, roots: seq<MenuResponse>)

  /** A response without its children. */
  function Head(r: MenuResponse): MenuResponse {
    r.(children := Nil)
  }

  /** `append(parent.Children, childCopy)` stored back into the parent. */
  function AppendChild(parent: MenuResponse, child: MenuResponse): (r: MenuResponse)
    ensures Head(r) == Head(parent) && Kids(r) == Kids(parent) + [child]
  {
    parent.(children := Slice(Kids(parent) + [child]))
  }

  /**
   * One iteration of the range loop, at key `id`: the current value is read from the map; a
   * menu with a loaded parent is appended to that parent's current value, a menu without a
   * parent is appended to the roots, and a menu whose parent is not loaded is skipped.
   */
  function Step(s: HState, id: int): (t: HState)
    requires id in s.menuMap
    ensures t.menuMap.Keys == s.menuMap.Keys
  {
    var menu := s.menuMap[id];
    match menu.parentId
    case Some(p) =>
      if p in s.menuMap then HState(s.menuMap[p := AppendChild(s.menuMap[p], menu)], s.roots) else s
    case None => HState(s.menuMap, s.roots + [s.menuMap[id]])
  }

  /** The range loop visiting the keys in `order`. */
  function Run(s: HState, order: seq<int>): (t: HState)
    requires forall k :: k in order ==> k in s.menuMap
    ensures t.menuMap.Keys == s.menuMap.Keys
  {
    if order == [] then s else
      var prefix := order[..|order| - 1];
      assert forall k :: k in prefix ==> k in order;
      Step(Run(s, prefix), order[|order| - 1])
  }

  /** The `Menus` of a login reply, for the menus the service returned and a range order. */
  function Hierarchy(menus: seq<MenuTree>, order: seq<int>): seq<MenuResponse>
    requires Enumerates(order, MenuIds(menus))
  {
    EnumeratesMembers(order, MenuIds(menus));
    Run(HState(FirstPass(menus), []), order).roots
  }

  /** The two loops of `Login` that build the hierarchy. */
  method BuildHierarchy(menus: seq<MenuTree>, order: seq<int>) returns (rootMenus: seq<MenuResponse>)
    requires Enumerates(order, MenuIds(menus))
    ensures rootMenus == Hierarchy(menus, order)
  {
    var menuMap: map<int, MenuResponse> := map[];
    for i := 0 to |menus|
      invariant menuMap == FirstPass(menus[..i])
    {
      assert menus[..i + 1][..i] == menus[..i];
      menuMap := menuMap[menus[i].id := ToMenuResponse(menus[i])];
    }
    assert menus[..|menus|] == menus;
    EnumeratesMembers(order, MenuIds(menus));
    ghost var m0 := menuMap;
    rootMenus := [];
    for i := 0 to |order|
      invariant menuMap.Keys == m0.Keys
      invariant HState(menuMap, rootMenus) == Run(HState(m0, []), order[..i])
    {
      assert order[..i + 1][..i] == order[..i];
      var id := order[i];
      var menu := menuMap[id];
      if menu.parentId.Some? {
        if menu.parentId.value in menuMap {
          var parent := menuMap[menu.parentId.value];
          var childCopy := menu;
          parent := parent.(children := Slice(Kids(parent) + [childCopy]));
          menuMap := menuMap[menu.parentId.value := parent];
        }
      } else {
        rootMenus := rootMenus + [menuMap[id]];
      }
    }
    assert order[..|order|] == order;
  }

  // ---------------------------------------------------------------- what the second pass keeps

  /**
   * A response grown from the first pass: it is a copy of a loaded menu whose children are
   * that menu's converted children followed by appended children, each naming it as parent
   * and grown in the same way.
   */
  predicate Grown(m0: map<int, MenuResponse>, r: MenuResponse)
    decreases r
  {
    var kids := if r.children.Slice? then r.children.items else [];
    r.id in m0 && Head(r) == Head(m0[r.id])
    && var base := Kids(m0[r.id]);
    |base| <= |kids| && kids[..|base|] == base
    && forall j :: |base| <= j < |kids| ==> kids[j].parentId == Some(r.id) && Grown(m0, kids[j])
  }

  /** The ids of a list of responses. */
  function Ids(rs: seq<MenuResponse>): (ids: seq<int>)
    ensures |ids| == |rs|
  {
    if rs == [] then [] else Ids(rs[..|rs| - 1]) + [rs[|rs| - 1].id]
  }

  /** A key whose loaded menu has no parent. */
  predicate IsRootRow(m0: map<int, MenuResponse>, k: int) {
    k in m0 && m0[k].parentId.None?
  }

  /** The keys of `order` whose loaded menu has no parent, in `order`'s order. */
  function ParentlessKeys(order: seq<int>, m0: map<int, MenuResponse>): seq<int> {
    if order == [] then [] else
      var k := order[|order| - 1];
      ParentlessKeys(order[..|order| - 1], m0) + (if IsRootRow(m0, k) then [k] else [])
  }

  /** What holds of the state after the range loop has visited any prefix of the keys. */
  predicate RunInvariant(m0: map<int, MenuResponse>, order: seq<int>, s: HState) {
    s.menuMap.Keys == m0.Keys
    && (forall k :: k in s.menuMap ==> s.menuMap[k].id == k && Grown(m0, s.menuMap[k]))
    && (forall j :: 0 <= j < |s.roots| ==> s.roots[j].parentId.None? && Grown(m0, s.roots[j]))
    && Ids(s.roots) == ParentlessKeys(order, m0)
  }

  /** A loaded menu is grown from itself. */
  lemma LoadedIsGrown(m0: map<int, MenuResponse>, k: int)
    requires WellKeyed(m0) && k in m0
    ensures Grown(m0, m0[k])
  {
    var r := m0[k];
    var kids := if r.children.Slice? then r.children.items else [];
    assert kids == Kids(m0[r.id]);
    assert kids[..|kids|] == kids;
  }

  /** Appending a grown child that names the parent keeps the parent grown. */
  lemma AppendKeepsGrown(m0: map<int, MenuResponse>, parent: MenuResponse, child: MenuResponse)
    requires Grown(m0, parent) && Grown(m0, child) && child.parentId == Some(parent.id)
    ensures Grown(m0, AppendChild(parent, child))
  {
    var r := AppendChild(parent, child);
    var base := Kids(m0[parent.id]);
    var kids := Kids(r);
    assert kids == Kids(parent) + [child];
    assert kids[..|base|] == Kids(parent)[..|base|];
    assert r.id == parent.id && Head(r) == Head(parent);
    assert r.children.Slice? && r.children.items == kids;
    forall j | |base| <= j < |kids|
      ensures kids[j].parentId == Some(r.id) && Grown(m0, kids[j])
    {
      if j < |Kids(parent)| {
        assert kids[j] == Kids(parent)[j];
      }
    }
  }

  lemma StepKeepsInvariant(m0: map<int, MenuResponse>, order: seq<int>, s: HState, id: int)
    requires id in m0 && RunInvariant(m0, order, s)
    ensures RunInvariant(m0, order + [id], Step(s, id))
  {
    var t := Step(s, id);
    var menu := s.menuMap[id];
    assert (order + [id])[..|order|] == order;
    match menu.parentId
    case Some(p) =>
      if p in s.menuMap {
        assert s.menuMap[p].id == p;
        AppendKeepsGrown(m0, s.menuMap[p], menu);
      }
    case None =>
      assert Ids(t.roots) == Ids(s.roots) + [id] by {
        assert t.roots[..|t.roots| - 1] == s.roots;
      }
  }

  lemma {:induction false} RunKeepsInvariant(m0: map<int, MenuResponse>, order: seq<int>)
    requires WellKeyed(m0)
    requires forall k :: k in order ==> k in m0
    ensures RunInvariant(m0, order, Run(HState(m0, []), order))
  {
    if order == [] {
      forall k | k in m0
        ensures Grown(m0, m0[k])
      {
        LoadedIsGrown(m0, k);
      }
    } else {
      var prefix := order[..|order| - 1];
      RunKeepsInvariant(m0, prefix);
      assert prefix + [order[|order| - 1]] == order;
      StepKeepsInvariant(m0, prefix, Run(HState(m0, []), prefix), order[|order| - 1]);
    }
  }

  /** A key occurs in the parentless keys as often as in the order, if its menu has no parent. */
  lemma {:induction false} ParentlessKeysCount(order: seq<int>, m0: map<int, MenuResponse>, k: int)
    ensures multiset(ParentlessKeys(order, m0))[k] == if IsRootRow(m0, k) then multiset(order)[k] else 0
  {
    if order != [] {
      var prefix := order[..|order| - 1];
      ParentlessKeysCount(prefix, m0, k);
      assert order == prefix + [order[|order| - 1]];
    }
  }

  // ---------------------------------------------------------------- properties of the login menus

  /** Every menu of a login reply has no parent and is grown from the loaded menus. */
  lemma LoginRootsAreParentless(menus: seq<MenuTree>, order: seq<int>)
    requires Enumerates(order, MenuIds(menus))
    ensures forall j :: 0 <= j < |Hierarchy(menus, order)| ==>
              Hierarchy(menus, order)[j].parentId.None? && Grown(FirstPass(menus), Hierarchy(menus, order)[j])
  {
    EnumeratesMembers(order, MenuIds(menus));
    RunKeepsInvariant(FirstPass(menus), order);
  }

  /** Each loaded id without a parent is the id of exactly one root; no other id is. */
  lemma LoginRootsOncePerParentlessMenu(menus: seq<MenuTree>, order: seq<int>, k: int)
    requires Enumerates(order, MenuIds(menus))
    ensures multiset(Ids(Hierarchy(menus, order)))[k] == if IsRootRow(FirstPass(menus), k) then 1 else 0
  {
    EnumeratesMembers(order, MenuIds(menus));
    RunKeepsInvariant(FirstPass(menus), order);
    ParentlessKeysCount(order, FirstPass(menus), k);
    assert multiset(order)[k] == if k in MenuIds(menus) then 1 else 0;
  }

  /** The root ids do not depend on the order of the range. */
  lemma LoginRootIdsIgnoreOrder(menus: seq<MenuTree>, order1: seq<int>, order2: seq<int>)
    requires Enumerates(order1, MenuIds(menus)) && Enumerates(order2, MenuIds(menus))
    ensures multiset(Ids(Hierarchy(menus, order1))) == multiset(Ids(Hierarchy(menus, order2)))
  {
    forall k
      ensures multiset(Ids(Hierarchy(menus, order1)))[k] == multiset(Ids(Hierarchy(menus, order2)))[k]
    {
      LoginRootsOncePerParentlessMenu(menus, order1, k);
      LoginRootsOncePerParentlessMenu(menus, order2, k);
    }
  }

  /** A parentless grown response is not an orphan, and no child appended to it is one. */
  lemma GrownRootHoldsNoOrphan(m0: map<int, MenuResponse>, r: MenuResponse, k: int)
    requires Grown(m0, r) && r.parentId.None?
    requires k in m0 && m0[k].parentId.Some? && m0[k].parentId.value !in m0
    ensures r.id != k
    ensures forall i :: |Kids(m0[r.id])| <= i < |Kids(r)| ==> Kids(r)[i].id != k
  {
    var kids := if r.children.Slice? then r.children.items else [];
    assert kids == Kids(r);
    forall i | |Kids(m0[r.id])| <= i < |Kids(r)|
      ensures Kids(r)[i].id != k
    {
      assert kids[i].parentId == Some(r.id) && Grown(m0, kids[i]);
      assert Head(kids[i]).parentId == kids[i].parentId;
    }
  }

  /**
   * A menu whose parent id is not loaded is neither a root nor among the children the loop
   * appends to a root.
   */
  lemma LoginDropsOrphans(menus: seq<MenuTree>, order: seq<int>, k: int, j: nat)
    requires Enumerates(order, MenuIds(menus))
    requires k in FirstPass(menus) && FirstPass(menus)[k].parentId.Some?
    requires FirstPass(menus)[k].parentId.value !in FirstPass(menus)
    requires j < |Hierarchy(menus, order)|
    ensures Hierarchy(menus, order)[j].id != k
    ensures Hierarchy(menus, order)[j].id in FirstPass(menus)
    ensures forall i :: |Kids(FirstPass(menus)[Hierarchy(menus, order)[j].id])| <= i < |Kids(Hierarchy(menus, order)[j])| ==>
              Kids(Hierarchy(menus, order)[j])[i].id != k
  {
    LoginRootsAreParentless(menus, order);
    GrownRootHoldsNoOrphan(FirstPass(menus), Hierarchy(menus, order)[j], k);
  }

  // ---------------------------------------------------------------- an order-dependent example

  /** A, B under A, and C under B. */
  const ExampleMenus: seq<MenuTree> :=
    [MenuTree(1, "A", "", "", None, []), MenuTree(2, "B", "", "", Some(1), []), MenuTree(3, "C", "", "", Some(2), [])]

  const RespA := MenuResponse(1, "A", "", "", None, Nil)
  const RespB := MenuResponse(2, "B", "", "", Some(1), Nil)
  const RespC := MenuResponse(3, "C", "", "", Some(2), Nil)

  lemma ExampleIds()
    ensures MenuIds(ExampleMenus) == {1, 2, 3}
  {
    var menus := ExampleMenus;
    assert menus[..1] == [menus[0]] && menus[..1][..0] == [];
    assert menus[..2][..1] == menus[..1];
    assert menus[..3] == menus && menus[..3][..2] == menus[..2];
    assert MenuIds(menus[..1]) == {1};
    assert MenuIds(menus[..2]) == {1, 2};
  }

  lemma ExampleOrders()
    ensures Enumerates([3, 2, 1], MenuIds(ExampleMenus)) && Enumerates([2, 3, 1], MenuIds(ExampleMenus))
  {
    ExampleIds();
    forall k
      ensures multiset([3, 2, 1])[k] == (if k in {1, 2, 3} then 1 else 0)
      ensures multiset([2, 3, 1])[k] == (if k in {1, 2, 3} then 1 else 0)
    {
      assert multiset([3, 2, 1]) == multiset{3} + multiset{2} + multiset{1};
      assert multiset([2, 3, 1]) == multiset{2} + multiset{3} + multiset{1};
    }
  }

  lemma ExampleFirstPass()
    ensures FirstPass(ExampleMenus) == map[1 := RespA, 2 := RespB, 3 := RespC]
  {
    var menus := ExampleMenus;
    assert menus[..1] == [menus[0]] && menus[..1][..0] == [];
    assert menus[..2][..1] == menus[..1];
    assert menus[..3] == menus && menus[..3][..2] == menus[..2];
    assert ToMenuResponse(menus[0]) == RespA;
    assert ToMenuResponse(menus[1]) == RespB;
    assert ToMenuResponse(menus[2]) == RespC;
    assert FirstPass(menus[..1]) == map[1 := RespA];
    assert FirstPass(menus[..2]) == map[1 := RespA, 2 := RespB];
  }

  /** Visiting C, B, A: B has C when it is copied into A. */
  lemma ExampleVisitCBA()
    ensures Enumerates([3, 2, 1], MenuIds(ExampleMenus))
    ensures Hierarchy(ExampleMenus, [3, 2, 1]) == [AppendChild(RespA, AppendChild(RespB, RespC))]
  {
    ExampleOrders();
    ExampleFirstPass();
    var s0 := HState(map[1 := RespA, 2 := RespB, 3 := RespC], []);
    assert [3, 2, 1][..2] == [3, 2] && [3, 2][..1] == [3] && [3][..0] == [];
    var b1 := AppendChild(RespB, RespC);
    assert Run(s0, [3]) == HState(s0.menuMap[2 := b1], []);
    var a1 := AppendChild(RespA, b1);
    assert Run(s0, [3, 2]) == HState(s0.menuMap[2 := b1][1 := a1], []);
  }

  /** Visiting B, C, A: B is copied into A before C is appended to B. */
  lemma ExampleVisitBCA()
    ensures Enumerates([2, 3, 1], MenuIds(ExampleMenus))
    ensures Hierarchy(ExampleMenus, [2, 3, 1]) == [AppendChild(RespA, RespB)]
  {
    ExampleOrders();
    ExampleFirstPass();
    var s0 := HState(map[1 := RespA, 2 := RespB, 3 := RespC], []);
    assert [2, 3, 1][..2] == [2, 3] && [2, 3][..1] == [2] && [2][..0] == [];
    var a1 := AppendChild(RespA, RespB);
    assert Run(s0, [2]) == HState(s0.menuMap[1 := a1], []);
    var b1 := AppendChild(RespB, RespC);
    assert Run(s0, [2, 3]) == HState(s0.menuMap[1 := a1][2 := b1], []);
  }

  /**
   * The children under a root depend on the order: both orders give the one root A with the
   * child B, but B carries C only when C was visited before B.
   */
  lemma LoginChildrenDependOnOrder()
    ensures Enumerates([3, 2, 1], MenuIds(ExampleMenus)) && Enumerates([2, 3, 1], MenuIds(ExampleMenus))
    ensures Ids(Hierarchy(ExampleMenus, [3, 2, 1])) == Ids(Hierarchy(ExampleMenus, [2, 3, 1])) == [1]
    ensures Hierarchy(ExampleMenus, [3, 2, 1]) != Hierarchy(ExampleMenus, [2, 3, 1])
  {
    ExampleVisitCBA();
    ExampleVisitBCA();
    var h1 := Hierarchy(ExampleMenus, [3, 2, 1]);
    var h2 := Hierarchy(ExampleMenus, [2, 3, 1]);
    assert h1[..0] == [] && h2[..0] == [];
    assert Kids(Kids(h1[0])[0]) == [RespC];
    assert Kids(Kids(h2[0])[0]) == [];
  }

  // ---------------------------------------------------------------- the handlers

  /**
   * `Login`: a body that does not bind is a 400 with the bind error; credentials the service
   * refuses are a 401, and then no token is asked for. The token and the menus are asked
   * for in that order, and the reply's menus are the hierarchy built in the map's range
   * order. `tokenFor` is the user a token was generated for. The menus are requested with the
   * user's role and, as the code passes it, the user's tenant id.
   */
  method Login(service: UserService, request: Result<LoginRequest, string>,
               generateToken: User -> Result<string, string>,
               menusByRole: (int, int) -> Result<seq<MenuTree>, string>,
               rangeOrder: set<int> -> seq<int>)
    returns (reply: Reply<LoginResponse>, tokenFor: Option<User>)
    requires forall ks :: Enumerates(rangeOrder(ks), ks)
    ensures request.Err? ==> reply == Fail(StatusBadRequest, request.error) && tokenFor == None
    ensures request.Ok? && !service.Accepts(request.value.email, request.value.password) ==>
              reply == Fail(StatusUnauthorized, "Invalid credentials") && tokenFor == None
    ensures request.Ok? && service.Accepts(request.value.email, request.value.password) ==>
      var u := service.users[FindByEmail(service.users, request.value.email).value];
      tokenFor == Some(u) &&
      match generateToken(u)
      case Err(_) => reply == Fail(StatusInternalServerError, "Failed to generate token")
      case Ok(token) =>
        match menusByRole(u.roleId, u.tenantId)
        case Err(_) => reply == Fail(StatusInternalServerError, "Failed to retrieve menus")
        case Ok(menus) =>
          reply == Reply(StatusOK, Json(LoginResponse(token, ToUserResponse(u), Hierarchy(menus, rangeOrder(MenuIds(menus))))))
  {
    if request.Err? {
      return Fail(StatusBadRequest, request.error), None;
    }
    var user := service.ValidateCredentials(request.value.email, request.value.password);
    if user.Err? {
      return Fail(StatusUnauthorized, "Invalid credentials"), None;
    }
    var u := user.value;
    tokenFor := Some(u);
    var token := generateToken(u);
    if token.Err? {
      reply := Fail(StatusInternalServerError, "Failed to generate token");
      return;
    }
    var menus := menusByRole(u.roleId, u.tenantId);
    if menus.Err? {
      reply := Fail(StatusInternalServerError, "Failed to retrieve menus");
      return;
    }
    var rootMenus := BuildHierarchy(menus.value, rangeOrder(MenuIds(menus.value)));
    reply := Reply(StatusOK, Json(LoginResponse(token.value, ToUserResponse(u), rootMenus)));
  }

  /** The body of a refreshed-token reply. */
  datatype TokenPair = TokenPair(accessToken: string, refreshToken: string, tokenType: string)

  /**
   * `RefreshToken`: an empty Authorization header is refused; otherwise one leading "Bearer "
   * is removed and the rest is validated. The token's user must still exist; then a new
   * access token and a new refresh token are generated. `validated` is the text handed to
   * the refresh-token validation.
   */
  method RefreshToken(service: UserService, header: string, validateRefresh: string -> Result<Uuid, string>,
                      generateAccess: User -> Result<string, string>, generateRefresh: User -> Result<string, string>)
    returns (reply: Reply<TokenPair>, validated: Option<string>)
    ensures header == "" <==> validated.None?
    ensures header == "" ==> reply == Fail(StatusUnauthorized, "Refresh token is required")
    ensures header != "" ==>
      validated == Some(TrimPrefix(header, "Bearer ")) &&
      match validateRefresh(validated.value)
      case Err(_) => reply == Fail(StatusUnauthorized, "Invalid refresh token")
      case Ok(id) =>
        match FindById(service.users, id)
        case None => reply == Fail(StatusUnauthorized, "User not found")
        case Some(k) =>
          match generateAccess(service.users[k])
          case Err(_) => reply == Fail(StatusInternalServerError, "Failed to generate token")
          case Ok(access) =>
            match generateRefresh(service.users[k])
            case Err(_) => reply == Fail(StatusInternalServerError, "Failed to generate refresh token")
            case Ok(refresh) => reply == Reply(StatusOK, Json(TokenPair(access, refresh, "Bearer")))
  {
    if header == "" {
      return Fail(StatusUnauthorized, "Refresh token is required"), None;
    }
    var refreshToken := TrimPrefix(header, "Bearer ");
    validated := Some(refreshToken);
    var tokenUser := validateRefresh(refreshToken);
    if tokenUser.Err? {
      reply := Fail(StatusUnauthorized, "Invalid refresh token");
      return;
    }
    var user := service.GetUserById(tokenUser.value);
    if user.Err? {
      reply := Fail(StatusUnauthorized, "User not found");
      return;
    }
    var accessToken := generateAccess(user.value);
    if accessToken.Err? {
      reply := Fail(StatusInternalServerError, "Failed to generate token");
      return;
    }
    var newRefreshToken := generateRefresh(user.value);
    if newRefreshToken.Err? {
      reply := Fail(StatusInternalServerError, "Failed to generate refresh token");
      return;
    }
    reply := Reply(StatusOK, Json(TokenPair(accessToken.value, newRefreshToken.value, "Bearer")));
  }

  /**
   * Only one "Bearer " is removed, the match is case-sensitive, and a header without the
   * prefix is used as it is.
   */
  lemma RefreshHeaderExamples()
    ensures TrimPrefix("Bearer abc", "Bearer ") == "abc"
    ensures TrimPrefix("Bearer Bearer abc", "Bearer ") == "Bearer abc"
    ensures TrimPrefix("bearer abc", "Bearer ") == "bearer abc"
    ensures TrimPrefix("abc", "Bearer ") == "abc"
    ensures TrimPrefix("Bearer ", "Bearer ") == ""
  {
    assert "bearer abc"[..7][0] != "Bearer "[0];
  }
}
