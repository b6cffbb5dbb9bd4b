/**
 * The menu HTTP handlers: the recursive conversion of a menu tree into its JSON response and
 * the two list endpoints, by role and by user. The menu service is a function parameter.
 */
module MenuHandler {
  import opened Wrappers
  import opened Text
  import opened Http

  /** A `menu.Menu` as the handlers receive it, with its `Children`. */
  datatype MenuTree = MenuTree(id: int, name: string, url: string, icon: string, parentId: Option<int>, children: seq<MenuTree>)

  /** `MenuResponse`; its `Children` slice is omitted from the JSON when empty. */
  datatype MenuResponse = MenuResponse(id: int, name: string, url: string, icon: string, parentId: Option<int>,
                                       children: Children)

  /** A Go slice of responses: nil, or allocated with its elements. */
  datatype Children = Nil | Slice(items: seq<MenuResponse>)

  /** `toMenuResponse`: the fields are copied, and the children converted one by one. */
  function ToMenuResponse(m: MenuTree): (r: MenuResponse)
    ensures r.id == m.id && r.name == m.name && r.url == m.url && r.icon == m.icon && r.parentId == m.parentId
    ensures r.children.Nil? <==> |m.children| == 0
    ensures r.children.Slice? ==> |r.children.items| == |m.children|
    decreases m
  {
    var kids := if |m.children| > 0
                then Slice(seq(|m.children|, i requires 0 <= i < |m.children| => ToMenuResponse(m.children[i])))
                else Nil;
    MenuResponse(m.id, m.name, m.url, m.icon, m.parentId, kids)
  }

  /** The children of a response, with nil read as empty. */
  function Kids(r: MenuResponse): seq<MenuResponse> {
    if r.children.Slice? then r.children.items else []
  }

  /** The tree a response describes; the inverse of `ToMenuResponse`. */
  function FromMenuResponse(r: MenuResponse): (m: MenuTree)
    ensures |m.children| == |Kids(r)|
    decreases r
  {
    var kids := if r.children.Slice? then r.children.items else [];
    MenuTree(r.id, r.name, r.url, r.icon, r.parentId,
             seq(|kids|, i requires 0 <= i < |kids| => FromMenuResponse(kids[i])))
  }

  /** Converting and reading back gives the original tree: nothing is lost or reordered. */
  lemma {:induction false} ToMenuResponseRoundTrip(m: MenuTree)
    ensures FromMenuResponse(ToMenuResponse(m)) == m
    decreases m
  {
    var r := ToMenuResponse(m);
    var back := FromMenuResponse(r);
    forall i | 0 <= i < |m.children|
      ensures back.children[i] == m.children[i]
    {
      ToMenuResponseRoundTrip(m.children[i]);
    }
  }

  function Depth(m: MenuTree): (d: nat)
    ensures d >= 1
    decreases m
  {
    1 + MaxDepth(m.children)
  }

  function MaxDepth(ms: seq<MenuTree>): nat
    decreases ms
  {
    if ms == [] then 0 else
      var a := Depth(ms[0]);
      var b := MaxDepth(ms[1..]);
      if a < b then b else a
  }

  function ResponseDepth(r: MenuResponse): (d: nat)
    ensures d >= 1
    decreases r
  {
    match r.children
    case Nil => 1
    case Slice(items) => 1 + MaxResponseDepth(items)
  }

  function MaxResponseDepth(rs: seq<MenuResponse>): nat
    decreases rs
  {
    if rs == [] then 0 else
      var a := ResponseDepth(rs[0]);
      var b := MaxResponseDepth(rs[1..]);
      if a < b then b else a
  }

  /** The response tree is exactly as deep as the menu tree. */
  lemma {:induction false} ToMenuResponseKeepsDepth(m: MenuTree)
    ensures ResponseDepth(ToMenuResponse(m)) == Depth(m)
    decreases m, 1
  {
    ChildrenKeepDepth(m, 0);
  }

  /** The children from index `from` on are, one for one, as deep as their responses. */
  lemma {:induction false} ChildrenKeepDepth(m: MenuTree, from: nat)
    requires from <= |m.children|
    ensures MaxResponseDepth(Kids(ToMenuResponse(m))[from..]) == MaxDepth(m.children[from..])
    decreases m, 0, |m.children| - from
  {
    var kids := Kids(ToMenuResponse(m));
    if from < |m.children| {
      ToMenuResponseKeepsDepth(m.children[from]);
      ChildrenKeepDepth(m, from + 1);
      assert kids[from..][1..] == kids[from + 1..];
      assert m.children[from..][1..] == m.children[from + 1..];
      assert kids[from] == ToMenuResponse(m.children[from]);
    } else {
      assert kids[from..] == [];
    }
  }

  /** The list endpoints convert the service's menus element by element, in order. */
  function ToMenuResponses(ms: seq<MenuTree>): seq<MenuResponse> {
    seq(|ms|, i requires 0 <= i < |ms| => ToMenuResponse(ms[i]))
  }

  /**
   * A list reply reads back, response by response, as the menus it was built from, so two
   * lists of menus that differ anywhere give different replies.
   */
  lemma ToMenuResponsesRoundTrip(ms: seq<MenuTree>, others: seq<MenuTree>)
    ensures forall i :: 0 <= i < |ms| ==> FromMenuResponse(ToMenuResponses(ms)[i]) == ms[i]
    ensures ToMenuResponses(ms) == ToMenuResponses(others) ==> ms == others
  {
    forall i | 0 <= i < |ms|
      ensures FromMenuResponse(ToMenuResponses(ms)[i]) == ms[i]
    {
      ToMenuResponseRoundTrip(ms[i]);
    }
    if ToMenuResponses(ms) == ToMenuResponses(others) {
      forall i | 0 <= i < |ms|
        ensures ms[i] == others[i]
      {
        ToMenuResponseRoundTrip(others[i]);
        assert ToMenuResponses(ms)[i] == ToMenuResponses(others)[i];
      }
    }
  }

  /** A handler's reply, and the argument it called the service with (`None`: not called). */
  datatype Outcome<+A> = Outcome(reply: Reply<seq<MenuResponse>>, serviceCalledWith: Option<A>)

  /** `GetMenusByRole`: `role_id` must parse as an integer before the service is asked. */
  function GetMenusByRole(roleIdQuery: string, byRole: int -> Result<seq<MenuTree>, string>): (o: Outcome<int>)
    ensures Atoi(roleIdQuery).None? <==> o.serviceCalledWith.None?
    ensures Atoi(roleIdQuery).None? ==> o.reply == Fail(StatusBadRequest, "Invalid role ID")
    ensures o.serviceCalledWith.Some? ==> Atoi(roleIdQuery) == o.serviceCalledWith
    ensures o.serviceCalledWith.Some? && byRole(o.serviceCalledWith.value).Err? ==>
              o.reply == Fail(StatusInternalServerError, byRole(o.serviceCalledWith.value).error)
    ensures o.serviceCalledWith.Some? && byRole(o.serviceCalledWith.value).Ok? ==>
              o.reply.status == StatusOK && o.reply.body.Json?
              && |o.reply.body.value| == |byRole(o.serviceCalledWith.value).value|
  {
    match Atoi(roleIdQuery)
    case None => Outcome(Fail(StatusBadRequest, "Invalid role ID"), None)
    case Some(roleId) =>
      match byRole(roleId)
      case Err(e) => Outcome(Fail(StatusInternalServerError, e), Some(roleId))
      case Ok(menus) => Outcome(Reply(StatusOK, Json(ToMenuResponses(menus))), Some(roleId))
  }

  /** `GetMenusByUser`: an empty `user_id` path parameter is refused before the service is asked. */
  function GetMenusByUser(userId: string, byUser: string -> Result<seq<MenuTree>, string>): (o: Outcome<string>)
    ensures userId == "" <==> o.serviceCalledWith.None?
    ensures userId == "" ==> o.reply == Fail(StatusBadRequest, "User ID is required")
    ensures userId != "" ==> o.serviceCalledWith == Some(userId)
    ensures userId != "" && byUser(userId).Err? ==> o.reply == Fail(StatusInternalServerError, byUser(userId).error)
    ensures userId != "" && byUser(userId).Ok? ==>
              o.reply.status == StatusOK && o.reply.body.Json? && |o.reply.body.value| == |byUser(userId).value|
  {
    if userId == "" then Outcome(Fail(StatusBadRequest, "User ID is required"), None)
    else match byUser(userId)
      case Err(e) => Outcome(Fail(StatusInternalServerError, e), Some(userId))
      case Ok(menus) => Outcome(Reply(StatusOK, Json(ToMenuResponses(menus))), Some(userId))
  }

  /**
   * What a client of the two menu endpoints can rely on: a reply carries the menus as JSON
   * exactly when its status is 200 and the service answered; every other reply is an
   * `{"error": ...}` body with 400 when the request was refused before the service was
   * asked, and 500 when the service failed.
   */
  lemma MenuFailuresAreErrorReplies(roleIdQuery: string, byRole: int -> Result<seq<MenuTree>, string>,
                                    userId: string, byUser: string -> Result<seq<MenuTree>, string>)
    ensures var o := GetMenusByRole(roleIdQuery, byRole);
            && (o.reply.body.Json? <==> o.reply.status == StatusOK)
            && (o.reply.status == StatusOK <==> o.serviceCalledWith.Some? && byRole(o.serviceCalledWith.value).Ok?)
            && (o.reply.status != StatusOK ==> o.reply.body.ErrorJson?)
            && (o.reply.status == StatusBadRequest <==> o.serviceCalledWith.None?)
            && (o.reply.status == StatusInternalServerError <==>
                  o.serviceCalledWith.Some? && byRole(o.serviceCalledWith.value).Err?)
    ensures var o := GetMenusByUser(userId, byUser);
            && (o.reply.body.Json? <==> o.reply.status == StatusOK)
            && (o.reply.status == StatusOK <==> userId != "" && byUser(userId).Ok?)
            && (o.reply.status != StatusOK ==> o.reply.body.ErrorJson?)
            && (o.reply.status == StatusBadRequest <==> o.serviceCalledWith.None?)
            && (o.reply.status == StatusInternalServerError <==> userId != "" && byUser(userId).Err?)
  {
  }

  /** A 200 reply lists the service's menus in their order, each read back to itself. */
  lemma ListRepliesPreserveMenus(userId: string, byUser: string -> Result<seq<MenuTree>, string>, i: nat)
    requires userId != "" && byUser(userId).Ok? && i < |byUser(userId).value|
    ensures GetMenusByUser(userId, byUser).reply.body.Json?
    ensures FromMenuResponse(GetMenusByUser(userId, byUser).reply.body.value[i]) == byUser(userId).value[i]
  {
    ToMenuResponseRoundTrip(byUser(userId).value[i]);
  }

  /** The same for the role endpoint: a 200 reply reads back to the role's menus, in order. */
  lemma RoleRepliesPreserveMenus(roleIdQuery: string, byRole: int -> Result<seq<MenuTree>, string>, i: nat)
    requires Atoi(roleIdQuery).Some? && byRole(Atoi(roleIdQuery).value).Ok?
    requires i < |byRole(Atoi(roleIdQuery).value).value|
    ensures GetMenusByRole(roleIdQuery, byRole).reply.body.Json?
    ensures FromMenuResponse(GetMenusByRole(roleIdQuery, byRole).reply.body.value[i])
            == byRole(Atoi(roleIdQuery).value).value[i]
  {
    ToMenuResponseRoundTrip(byRole(Atoi(roleIdQuery).value).value[i]);
  }

  /** "12" is a role id; "12a" and "" are not, and never reach the service. */
  lemma RoleIdExamples(byRole: int -> Result<seq<MenuTree>, string>)
    ensures GetMenusByRole("12", byRole).serviceCalledWith == Some(12)
    ensures GetMenusByRole("12a", byRole).reply == Fail(StatusBadRequest, "Invalid role ID")
    ensures GetMenusByRole("", byRole).serviceCalledWith == None
  {
    assert AllDigits("12");
    assert DigitsValue("12") == 12 by {
      assert "12"[..1] == "1";
      assert DigitsValue("1") == 1 by { assert "1"[..0] == ""; }
    }
    assert !AllDigits("12a") by { assert !IsDigit("12a"[2]); }
  }
}
