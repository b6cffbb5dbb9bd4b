/**
 * `AuthMiddleware`: the Authorization header must be exactly "Bearer <token>"; the token is
 * validated, the user id it carries parsed, the identity stored in the context and the
 * user's permissions loaded. Token validation, uuid parsing and the permission lookup are
 * function parameters.
 */
module AuthMiddleware {
  import opened Wrappers
  import opened Text
  import opened Http
  import opened Gin

  /** The claims read from a valid token. */
  datatype Claims = Claims(userId: string, username: string, tenantId: int)

  /** `strings.Split(header, " ")` must give two parts, the first being "Bearer". */
  function BearerToken(header: string): (r: Option<string>)
    ensures r.Some? ==> ' ' !in r.value
  {
    var parts := Split(header, ' ');
    if |parts| == 2 && parts[0] == "Bearer" then Some(parts[1]) else None
  }

  /** The header is accepted with token `t` exactly when it is "Bearer", one space, and `t` without spaces. */
  lemma BearerTokenIff(header: string, t: string)
    ensures BearerToken(header) == Some(t) <==> header == "Bearer " + t && ' ' !in t
  {
    SplitTwo(header, ' ', "Bearer", t);
    assert "Bearer" + [' '] + t == "Bearer " + t;
    assert ' ' !in "Bearer";
  }

  /** "Bearer abc" carries "abc", and "Bearer " carries the empty token. */
  lemma BearerTokenAccepts()
    ensures BearerToken("Bearer abc") == Some("abc")
    ensures BearerToken("Bearer ") == Some("")
  {
    BearerTokenIff("Bearer abc", "abc");
    BearerTokenIff("Bearer ", "");
    assert "Bearer " == "Bearer " + "";
  }

  /** The scheme is case-sensitive. */
  lemma BearerTokenIsCaseSensitive()
    ensures BearerToken("bearer abc") == None
  {
    if BearerToken("bearer abc").Some? {
      var t := BearerToken("bearer abc").value;
      BearerTokenIff("bearer abc", t);
    }
  }

  /** A second space between the scheme and the token is refused. */
  lemma BearerTokenRefusesDoubleSpace()
    ensures BearerToken("Bearer  abc") == None
  {
    if BearerToken("Bearer  abc").Some? {
      var t := BearerToken("Bearer  abc").value;
      BearerTokenIff("Bearer  abc", t);
      assert ("Bearer " + t)[7] == t[0];
    }
  }

  /**
   * The middleware. The three identity keys are written before the permissions are loaded,
   * so they stay in the context when that load fails; the chain continues only when every
   * check passes.
   */
  method Authenticate(c: Context, header: string, validate: string -> Result<Claims, string>,
                      parseUuid: string -> Option<seq<bv8>>, loadPermissions: seq<bv8> -> Result<seq<string>, string>)
    modifies c
    ensures c.requestValues == old(c.requestValues)
    ensures c.nextCalled <==> (old(c.nextCalled) || (
              BearerToken(header).Some? && validate(BearerToken(header).value).Ok?
              && parseUuid(validate(BearerToken(header).value).value.userId).Some?
              && loadPermissions(parseUuid(validate(BearerToken(header).value).value.userId).value).Ok?))
    ensures header == "" ==>
              c.reply == Some(Fail(StatusUnauthorized, "Authorization header is required")) && c.aborted && c.keys == old(c.keys)
    ensures header != "" && BearerToken(header).None? ==>
              c.reply == Some(Fail(StatusUnauthorized, "Invalid authorization header format")) && c.aborted && c.keys == old(c.keys)
    ensures BearerToken(header).Some? ==>
      match validate(BearerToken(header).value)
      case Err(_) => c.reply == Some(Fail(StatusUnauthorized, "Invalid token")) && c.aborted && c.keys == old(c.keys)
      case Ok(claims) =>
        match parseUuid(claims.userId)
        case None => c.reply == Some(Fail(StatusUnauthorized, "Invalid user ID in token")) && c.aborted && c.keys == old(c.keys)
        case Some(userId) =>
          var identity := old(c.keys)["userID" := UuidValue(userId)]["username" := StringValue(claims.username)]
                                      ["tenantID" := IntValue(claims.tenantId)];
          match loadPermissions(userId)
          case Err(_) =>
            c.reply == Some(Fail(StatusInternalServerError, "Failed to load user permissions")) && c.aborted && c.keys == identity
          case Ok(permissions) =>
            c.keys == identity["userPermissions" := PermissionsValue(permissions)]
            && c.reply == old(c.reply) && c.aborted == old(c.aborted)
  {
    if header == "" {
      c.AbortWith(StatusUnauthorized, "Authorization header is required");
      return;
    }
    var parts := Split(header, ' ');
    if |parts| != 2 || parts[0] != "Bearer" {
      c.AbortWith(StatusUnauthorized, "Invalid authorization header format");
      return;
    }
    var claims := validate(parts[1]);
    if claims.Err? {
      c.AbortWith(StatusUnauthorized, "Invalid token");
      return;
    }
    var userId := parseUuid(claims.value.userId);
    if userId.None? {
      c.AbortWith(StatusUnauthorized, "Invalid user ID in token");
      return;
    }
    c.keys := c.keys["userID" := UuidValue(userId.value)];
    c.keys := c.keys["username" := StringValue(claims.value.username)];
    c.keys := c.keys["tenantID" := IntValue(claims.value.tenantId)];
    var permissions := loadPermissions(userId.value);
    if permissions.Err? {
      c.AbortWith(StatusInternalServerError, "Failed to load user permissions");
      return;
    }
    c.keys := c.keys["userPermissions" := PermissionsValue(permissions.value)];
    c.nextCalled := true;
  }
}
