/**
 * The part of a gin request context the middleware use: the key/value store written by
 * `c.Set`, the values of the request's `context.Context`, the reply written by `c.JSON`,
 * and whether the chain was aborted or continued with `c.Next()`.
 */
module Gin {
  import opened Wrappers
  import opened Http

  /** The values the middleware store under a key. */
  datatype Value =
    | UuidValue(uuid: seq<bv8>)
    | StringValue(text: string)
    | IntValue(number: int)
    | PermissionsValue(permissions: seq<string>)
    | UserContextValue(username: string, tenantId: int)

  /** The decision of a middleware that writes nothing into the context. */
  datatype Outcome = Abort(reply: Reply<()>) | Next

  class Context {
    /** `c.Keys`. */
    var keys: map<string, Value>
    /** The values attached to `c.Request`'s context. */
    var requestValues: map<string, Value>
    /** The JSON reply written so far. */
    var reply: Option<Reply<()>>
    var aborted: bool
    var nextCalled: bool

    constructor(keys0: map<string, Value>)
      ensures keys == keys0 && requestValues == map[] && reply == None && !aborted && !nextCalled
    {
      keys, requestValues, reply, aborted, nextCalled := keys0, map[], None, false, false;
    }

    /** `c.JSON(status, gin.H{"error": message})` followed by `c.Abort()`. */
    method AbortWith(status: int, message: string)
      modifies this
      ensures reply == Some(Fail(status, message)) && aborted
      ensures keys == old(keys) && requestValues == old(requestValues) && nextCalled == old(nextCalled)
    {
      reply := Some(Fail(status, message));
      aborted := true;
    }
  }
}
