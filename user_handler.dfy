/**
 * The user HTTP handlers over the user service. `uuid.Parse` is a function parameter; a
 * request body that gin could not bind arrives as the bind error's text.
 */
module UserHandler {
  import opened Wrappers
  import opened Text
  import opened Http
  import opened UserService

  /** `UserResponse`: what a client sees of a user. */
  datatype UserResponse = UserResponse(id: Uuid, username: string, email: string, roleId: int)

  datatype CreateUserRequest = CreateUserRequest(username: string, email: string, password: string, roleId: int)

  datatype UpdateUserRequest = UpdateUserRequest(username: string, email: string)

  /** `ToUserResponse`: the id, the names and the role are copied. */
  function ToUserResponse(u: User): UserResponse {
    UserResponse(u.id, u.username, u.email, u.roleId)
  }

  /** Neither the password hash nor the tenant of a user can be read from its response. */
  lemma ResponseHidesSecrets(u: User, password: string, tenantId: int)
    ensures ToUserResponse(u.(password := password, tenantId := tenantId)) == ToUserResponse(u)
  {
  }

  /** Two users give the same response exactly when their id, names and role agree. */
  lemma ResponseShowsPublicFields(u: User, v: User)
    ensures ToUserResponse(u) == ToUserResponse(v) <==>
              u.id == v.id && u.username == v.username && u.email == v.email && u.roleId == v.roleId
  {
  }

  /** `ToUserResponses`: one response per user, in order. */
  function ToUserResponses(users: seq<User>): seq<UserResponse> {
    seq(|users|, i requires 0 <= i < |users| => ToUserResponse(users[i]))
  }

  /** Converting a concatenation of user lists converts each list and concatenates the results. */
  lemma ToUserResponsesConcat(a: seq<User>, b: seq<User>)
    ensures ToUserResponses(a + b) == ToUserResponses(a) + ToUserResponses(b)
  {
    var l, r := ToUserResponses(a + b), ToUserResponses(a) + ToUserResponses(b);
    assert |l| == |r|;
    forall i | 0 <= i < |l|
      ensures l[i] == r[i]
    {
      if i < |a| {
        assert (a + b)[i] == a[i];
      } else {
        assert (a + b)[i] == b[i - |a|];
      }
    }
  }

  /** A paging query value: it replaces the default only when it is an integer above zero. */
  function QueryOrDefault(query: string, default: int): (r: int)
    ensures r == default || (Atoi(query) == Some(r) && r > 0)
    ensures (Atoi(query).Some? && Atoi(query).value > 0) ==> r == Atoi(query).value
    ensures default > 0 ==> r > 0
  {
    if query != "" then
      match Atoi(query)
      case Some(p) => if p > 0 then p else default
      case None => default
    else default
  }

  /** An absent, zero, negative or non-numeric value keeps the default; "+3" counts as 3. */
  lemma QueryExamples()
    ensures QueryOrDefault("", 10) == 10
    ensures QueryOrDefault("0", 1) == 1
    ensures QueryOrDefault("-4", 1) == 1
    ensures QueryOrDefault("x", 1) == 1
    ensures QueryOrDefault("3", 1) == 3
    ensures QueryOrDefault("+3", 1) == 3
  {
    assert DigitsValue("0") == 0 by { assert "0"[..0] == ""; }
    assert DigitsValue("4") == 4 by { assert "4"[..0] == ""; }
    assert DigitsValue("3") == 3 by { assert "3"[..0] == ""; }
    assert "-4"[1..] == "4";
    assert "+3"[1..] == "3";
    assert !IsDigit("x"[0]);
  }

  /**
   * `GetUsers`: the page and size default to 1 and 10 and are overridden by positive query
   * values; the service's clamps then pass them on unchanged, so `listPage` and `listSize`,
   * the arguments of the repository's `List`, are exactly the parsed values. `listed` is what
   * that call returns.
   */
  method GetUsers(service: UserService, pageQuery: string, sizeQuery: string, listed: Result<seq<User>, string>)
    returns (reply: Reply<seq<UserResponse>>, listPage: int, listSize: int)
    ensures listPage == QueryOrDefault(pageQuery, 1) && listSize == QueryOrDefault(sizeQuery, 10)
    ensures listed.Err? ==> reply == Fail(StatusInternalServerError, listed.error)
    ensures listed.Ok? ==> reply == Reply(StatusOK, Json(ToUserResponses(listed.value)))
  {
    var page := 1;
    var size := 10;
    if pageQuery != "" {
      var p := Atoi(pageQuery);
      if p.Some? && p.value > 0 {
        page := p.value;
      }
    }
    if sizeQuery != "" {
      var s := Atoi(sizeQuery);
      if s.Some? && s.value > 0 {
        size := s.value;
      }
    }
    listPage, listSize := service.ListUsers(page, size);
    if listed.Err? {
      return Fail(StatusInternalServerError, listed.error), listPage, listSize;
    }
    reply := Reply(StatusOK, Json(ToUserResponses(listed.value)));
  }

  /** `GetUser`: an id that does not parse is refused before the service is asked. */
  method GetUser(service: UserService, idParam: string, parseUuid: string -> Option<Uuid>)
    returns (reply: Reply<UserResponse>, lookedUp: bool)
    ensures lookedUp <==> parseUuid(idParam).Some?
    ensures !lookedUp ==> reply == Fail(StatusBadRequest, "Invalid ID format")
    ensures lookedUp && FindById(service.users, parseUuid(idParam).value).None? ==>
              reply == Fail(StatusNotFound, "User not found")
    ensures lookedUp && FindById(service.users, parseUuid(idParam).value).Some? ==>
              reply == Reply(StatusOK, Json(ToUserResponse(service.users[FindById(service.users, parseUuid(idParam).value).value])))
  {
    var id := parseUuid(idParam);
    if id.None? {
      return Fail(StatusBadRequest, "Invalid ID format"), false;
    }
    lookedUp := true;
    var u := service.GetUserById(id.value);
    if u.Err? {
      reply := Fail(StatusNotFound, "User not found");
      return;
    }
    reply := Reply(StatusOK, Json(ToUserResponse(u.value)));
  }

  /**
   * `UpdateUser`: the id is parsed before the body is bound, and either failure writes
   * nothing. Every service error, a missing user included, is a 400 with the error's text.
   */
  method UpdateUser(service: UserService, idParam: string, parseUuid: string -> Option<Uuid>,
                    request: Result<UpdateUserRequest, string>, updateOk: bool)
    returns (reply: Reply<UserResponse>)
    requires service.Valid()
    modifies service
    ensures service.Valid()
    ensures parseUuid(idParam).None? ==> reply == Fail(StatusBadRequest, "Invalid ID format") && service.users == old(service.users)
    ensures parseUuid(idParam).Some? && request.Err? ==>
              reply == Fail(StatusBadRequest, request.error) && service.users == old(service.users)
    ensures parseUuid(idParam).Some? && request.Ok? ==>
      var k := FindById(old(service.users), parseUuid(idParam).value);
      if k.None? then
        reply == Fail(StatusBadRequest, ErrorText(NotFound)) && service.users == old(service.users)
      else
        var u := old(service.users)[k.value].(username := request.value.username, email := request.value.email);
        if updateOk then reply == Reply(StatusOK, Json(ToUserResponse(u))) && service.users == old(service.users)[k.value := u]
        else reply == Fail(StatusBadRequest, ErrorText(RepositoryFailed)) && service.users == old(service.users)
  {
    var id := parseUuid(idParam);
    if id.None? {
      return Fail(StatusBadRequest, "Invalid ID format");
    }
    if request.Err? {
      return Fail(StatusBadRequest, request.error);
    }
    var u := service.UpdateUser(id.value, request.value.username, request.value.email, updateOk);
    if u.Err? {
      return Fail(StatusBadRequest, ErrorText(u.error));
    }
    reply := Reply(StatusOK, Json(ToUserResponse(u.value)));
  }

  /** `DeleteUser`: any service error is reported as 404 "User not found"; success has no body. */
  method DeleteUser(service: UserService, idParam: string, parseUuid: string -> Option<Uuid>, deleteOk: bool)
    returns (reply: Reply<()>)
    modifies service
    ensures parseUuid(idParam).None? ==> reply == Fail(StatusBadRequest, "Invalid ID format") && service.users == old(service.users)
    ensures parseUuid(idParam).Some? && !deleteOk ==> reply == Fail(StatusNotFound, "User not found") && service.users == old(service.users)
    ensures parseUuid(idParam).Some? && deleteOk ==>
              reply == Reply(StatusNoContent, NoBody) && service.users == DeleteRows(old(service.users), parseUuid(idParam).value)
  {
    var id := parseUuid(idParam);
    if id.None? {
      return Fail(StatusBadRequest, "Invalid ID format");
    }
    var r := service.DeleteUser(id.value, deleteOk);
    if r.Err? {
      return Fail(StatusNotFound, "User not found");
    }
    reply := Reply(StatusNoContent, NoBody);
  }

  /** `CreateUser`: a bad body and a service error are both 400; a created user is 201. */
  method CreateUser(service: UserService, request: Result<CreateUserRequest, string>, freshId: Uuid,
                    hashOk: bool, createOk: bool)
    returns (reply: Reply<UserResponse>)
    requires service.Valid()
    modifies service
    ensures service.Valid()
    ensures request.Err? ==> reply == Fail(StatusBadRequest, request.error) && service.users == old(service.users)
    ensures request.Ok? && !hashOk ==> reply == Fail(StatusBadRequest, ErrorText(HashFailed)) && service.users == old(service.users)
    ensures request.Ok? && hashOk && !createOk ==>
              reply == Fail(StatusBadRequest, ErrorText(RepositoryFailed)) && service.users == old(service.users)
    ensures request.Ok? && hashOk && createOk ==>
      var q := request.value;
      var u := User(freshId, q.username, q.email, old(service.hash)(q.password, old(service.salt)), q.roleId, 0);
      reply == Reply(StatusCreated, Json(ToUserResponse(u))) && service.users == old(service.users) + [u]
  {
    if request.Err? {
      return Fail(StatusBadRequest, request.error);
    }
    var q := request.value;
    var u := service.CreateUser(q.username, q.email, q.password, q.roleId, freshId, hashOk, createOk);
    if u.Err? {
      return Fail(StatusBadRequest, ErrorText(u.error));
    }
    reply := Reply(StatusCreated, Json(ToUserResponse(u.value)));
  }
}
