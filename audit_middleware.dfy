/**
 * The `AuditContext` middleware of the middleware package: it copies the username and the
 * tenant id stored by the authentication middleware into a user context, set both in the
 * gin context and in the request's context. The key it uses is defined in a package that is
 * not part of this model, so it is a parameter.
 */
module AuditMiddleware {
  import opened Wrappers
  import opened Http
  import opened Gin

  /**
   * A missing username aborts with 401 and is checked first; a missing tenant id aborts with
   * 400. Stored values of another type make the type assertions panic, and `panicked` says
   * so. Otherwise exactly the stored username and tenant id are set under `key` in both
   * places before the chain continues.
   */
  method SetUserContext(c: Context, key: string) returns (panicked: bool)
    modifies c
    ensures "username" !in old(c.keys) ==>
              !panicked && c.reply == Some(Fail(401, "Unauthorized - User context not found")) && c.aborted
              && c.keys == old(c.keys) && c.requestValues == old(c.requestValues) && c.nextCalled == old(c.nextCalled)
    ensures "username" in old(c.keys) && "tenantID" !in old(c.keys) ==>
              !panicked && c.reply == Some(Fail(400, "Bad Request - Tenant ID not found")) && c.aborted
              && c.keys == old(c.keys) && c.requestValues == old(c.requestValues) && c.nextCalled == old(c.nextCalled)
    ensures "username" in old(c.keys) && "tenantID" in old(c.keys) ==>
      var u := old(c.keys)["username"];
      var t := old(c.keys)["tenantID"];
      (panicked <==> !(u.StringValue? && t.IntValue?))
      && (panicked ==> c.keys == old(c.keys) && c.requestValues == old(c.requestValues) && c.nextCalled == old(c.nextCalled))
      && (!panicked ==>
            var ctx := UserContextValue(u.text, t.number);
            c.keys == old(c.keys)[key := ctx] && c.requestValues == old(c.requestValues)[key := ctx]
            && c.nextCalled && c.reply == old(c.reply) && c.aborted == old(c.aborted))
  {
    panicked := false;
    if "username" !in c.keys {
      c.AbortWith(401, "Unauthorized - User context not found");
      return;
    }
    var username := c.keys["username"];
    if "tenantID" !in c.keys {
      c.AbortWith(400, "Bad Request - Tenant ID not found");
      return;
    }
    var tenantId := c.keys["tenantID"];
    if !username.StringValue? || !tenantId.IntValue? {
      return true;
    }
    var userCtx := UserContextValue(username.text, tenantId.number);
    c.keys := c.keys[key := userCtx];
    c.requestValues := c.requestValues[key := userCtx];
    c.nextCalled := true;
  }
}
